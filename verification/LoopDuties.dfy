/** What one turn does besides reviewing: when a candidate is frozen, what is counted, what was read and
    planned, and which reviews are reused (internal/investigator/article_loop.go, article_loop_input.go,
    article_loop_convergence.go). */
module LoopDuties {
  import opened Lists
  import opened Wrappers
  import opened ReviewMaterial
  import opened ReviewWork
  import opened ArticleLoop
  import opened LoopRecovery
  import opened LoopSafety
  import opened LoopSteps
  import opened LoopFindings

  // ----- what a turn does

  predicate IsCut(reply: Reply) {
    reply.Truncated? || reply.TooLarge?
  }

  predicate IsBlocked(l: Loop, h: ArticleLoop.Article) {
    h in l.blocked && l.blocked[h] != []
  }

  /** An evidenced dispute of a blocked draft that was not disputed before. */
  predicate Disputes(s: Store, l: Loop, reply: Reply) {
    reply.Challenge? && reply.expected == s.current.version && IsBlocked(l, s.current.article) && s.current.article !in l.disputes && reply.answered
  }

  /** The author asks for a review of the draft as it is after the turn. */
  predicate Asks(s: Store, slot: nat, l: Loop, reply: Reply) {
    match reply
    case SaveSections(save) => save.finish && slot in s.receipts && !s.receipts[slot].rejected
    case ReviseBlocks(_) => slot in s.plans && s.plans[slot].finish && slot in s.receipts && !s.receipts[slot].rejected
    case Finish(expected) => expected == s.current.version
    case Challenge(_, _) => Disputes(s, l, reply)
    case _ => false
  }

  /** The draft whose findings are disputed. */
  function DisputedAfter(s: Store, slot: nat, l: Loop, reply: Reply): Option<ArticleLoop.Article> {
    if Disputes(s, l, reply) then Some(s.current.article) else if IsRevised(s, slot) then None else l.challenged
  }

  /** The draft becomes a candidate: the author asks for it, every original was delivered, the draft is
      valid, and it is not blocked, or its findings are disputed. */
  predicate Freezes(env: Env, s: Store, slot: nat, l: Loop, reply: Reply, read: set<string>) {
    && Asks(s, slot, l, reply) && AllIn(env.transcript, read) && env.valid(s.current.article)
    && (!IsBlocked(l, s.current.article) || DisputedAfter(s, slot, l, reply) == Some(s.current.article))
  }

  /** A reply that its call cannot use. */
  function Invalid(env: Env, l: Loop, call: Call, reply: Reply): Option<Protocol> {
    if IsCut(reply) then None
    else
      match call.mode
      case Source => if reply.SourcePlan? then None else Some(SourceProtocol)
      case Review(scope) => if IsAdmitted(env, l, scope, reply) then None else Some(ReviewProtocol(l.candidate, scope.id))
      case Author => None
  }

  /** Something moved: a plan, a review, a changed draft, a new candidate, or originals not seen before. */
  predicate Progresses(env: Env, s: Store, l: Loop, call: Call, reply: Reply) {
    && !IsCut(reply)
    && (|| (exists id | id in call.sources :: id !in l.read)
        || (!call.mode.Author? && Invalid(env, l, call, reply).None?)
        || (call.mode.Author? && (IsRevised(s, call.slot) || Freezes(env, s, call.slot, l, reply, l.read + Elements(call.sources)))))
  }

  predicate IsRepair(l: Loop, call: Call, reply: Reply) {
    !IsCut(reply) && call.mode.Author? && l.issues != [] && CountsAsRepair(reply)
  }

  /** What was delivered and planned, and the invalid replies. */
  ghost predicate Notes(env: Env, l: Loop, call: Call, reply: Reply, l': Loop) {
    && l'.read == (if IsCut(reply) then l.read else l.read + Elements(call.sources))
    && l'.planned == (if call.mode.Source? && reply.SourcePlan? then l.planned + Elements(call.sources) else l.planned)
    && l'.failures == (match Invalid(env, l, call, reply) case None => l.failures case Some(p) => l.failures[p := 1 + if p in l.failures then l.failures[p] else 0])
  }

  /** Repairs, disputes and the candidate that an author call leaves. */
  ghost predicate Writes(env: Env, s: Store, l: Loop, call: Call, reply: Reply, l': Loop) {
    && l'.repairActions == (if IsRepair(l, call, reply) then l.repairActions + 1 else l.repairActions)
    && l'.disputes == (if Disputes(s, l, reply) then l.disputes + {s.current.article} else l.disputes) && l'.challenged == DisputedAfter(s, call.slot, l, reply)
    && l'.candidate == (if Freezes(env, s, call.slot, l, reply, l'.read) then Some(s.current.article) else None) && l'.blocked == l.blocked
  }

  /** Repairs and disputes that another call leaves: a verdict starts them anew. */
  ghost predicate Judges(l: Loop, l': Loop) {
    && l'.disputes == l.disputes
    && if l'.candidate == l.candidate then l'.repairActions == l.repairActions && l'.challenged == l.challenged && l'.blocked == l.blocked
       else l'.candidate.None? && l'.repairActions == 0 && l'.challenged == None
  }

  ghost predicate DoesMost(env: Env, s: Store, l: Loop, call: Call, reply: Reply, l': Loop) {
    Notes(env, l, call, reply, l') && if call.mode.Author? then Writes(env, s, l, call, reply, l') else Judges(l, l')
  }

  ghost predicate Does(env: Env, s: Store, l: Loop, call: Call, reply: Reply, l': Loop) {
    DoesMost(env, s, l, call, reply, l') && l'.noProgress == if Progresses(env, s, l, call, reply) then 0 else l.noProgress + 1
  }

  // ----- freezing

  /** Everything but the candidate and its review. */
  predicate SameButCandidate(l: Loop, l': Loop) {
    && l'.read == l.read && l'.planned == l.planned && l'.failures == l.failures && l'.noProgress == l.noProgress && l'.repairActions == l.repairActions
    && l'.disputes == l.disputes && l'.challenged == l.challenged && l'.blocked == l.blocked && l'.cache == l.cache && l'.pending == l.pending
  }

  lemma FreezeExactly(env: Env, s: Store, l: Loop, expected: nat)
    requires l.candidate.None? && Freeze(env, s, l, expected).ok
    ensures var a, h := Freeze(env, s, l, expected), s.current.article;
      var go := s.current.version == expected && AllIn(env.transcript, l.read) && env.valid(h) && (!IsBlocked(l, h) || l.challenged == Some(h));
        SameButCandidate(l, a.loop) && a.progress == go && a.loop.candidate == if go then Some(h) else None
  {
    hide ReuseFirst, AllIn;
  }

  lemma SaveExactly(env: Env, s: Store, l: Loop, slot: nat, save: Save)
    requires var a := SaveAndFinish(env, s, l, slot, save); l.candidate.None? && a.ok && AllMade(s, a.writes) && DraftIsOf(s, slot, a.writes)
    ensures var a, h := SaveAndFinish(env, s, l, slot, save), s.current.article;
      var challenged := if IsRevised(s, slot) then None else l.challenged;
      var go := save.finish && slot in s.receipts && !s.receipts[slot].rejected && AllIn(env.transcript, l.read) && env.valid(h) && (!IsBlocked(l, h) || challenged == Some(h));
        && SameButCandidate(l.(challenged := challenged), a.loop) && a.progress == (IsRevised(s, slot) || go) && a.loop.candidate == if go then Some(h) else None
  {
    hide Freeze, AllIn;
    var w, a := SaveDraft(env, s, slot, save), SaveAndFinish(env, s, l, slot, save);
    if w.receipt.Some? {
      var receipt := w.receipt.value;
      assert a.writes[0] == PutDraft(slot, receipt) && Has(s, a.writes[0]);
      assert AfterDraft(s, slot, receipt) == s;
      var l1 := if receipt.noop then l else l.(challenged := None, candidate := None, scopes := [], keys := [], draftVersion := 0);
      if save.finish && !receipt.rejected {
        FreezeExactly(env, s, l1, s.current.version);
      }
    }
  }

  lemma ReviseExactly(env: Env, s: Store, l: Loop, slot: nat, patch: Patch)
    requires var a := Revise(env, s, l, slot, patch); l.candidate.None? && a.ok && AllMade(s, a.writes) && DraftIsOf(s, slot, a.writes)
    ensures var a, h := Revise(env, s, l, slot, patch), s.current.article;
      var challenged := if IsRevised(s, slot) then None else l.challenged;
      var go := slot in s.plans && s.plans[slot].finish && slot in s.receipts && !s.receipts[slot].rejected && AllIn(env.transcript, l.read) && env.valid(h) && (!IsBlocked(l, h) || challenged == Some(h));
        && SameButCandidate(l.(challenged := challenged), a.loop) && a.progress == (IsRevised(s, slot) || go) && a.loop.candidate == if go then Some(h) else None
  {
    hide SaveAndFinish, AllIn;
    var planned := if slot in s.plans then Some(s.plans[slot])
                   else if s.current.version != patch.expected then None
                   else env.expand(s.current.article, patch);
    if planned.Some? {
      var a, b := Revise(env, s, l, slot, patch), SaveAndFinish(env, s, l, slot, planned.value);
      assert a.writes == [PutPlan(slot, planned.value)] + b.writes;
      assert Has(s, a.writes[0]);
      forall i | 0 <= i < |b.writes| ensures Has(s, b.writes[i]) {
        assert a.writes[i + 1] == b.writes[i];
      }
      SaveExactly(env, s, l, slot, planned.value);
    }
  }

  // ----- the three kinds of turns

  predicate IsNews(l: Loop, call: Call) {
    exists id | id in call.sources :: id !in l.read
  }

  /** What an action leaves to the end of the turn. */
  ghost predicate ActsOut(env: Env, s: Store, l: Loop, call: Call, reply: Reply, a: Action) {
    DoesMost(env, s, l, call, reply, a.loop) && a.loop.noProgress == l.noProgress && (a.progress || IsNews(l, call) <==> Progresses(env, s, l, call, reply))
  }

  lemma NoDraftMade(s: Store, slot: nat, ws: seq<Write>)
    requires DraftIsOf(s, slot, ws) && forall w | w in ws :: !w.PutDraft?
    ensures slot !in s.receipts
  {
  }

  /** An author's action: what it leaves of the loop, whether it moves, and whether it freezes. */
  ghost predicate IsAuthored(env: Env, s: Store, l: Loop, call: Call, reply: Reply, a: Action) {
    var l1 := if IsRepair(l, call, reply) then l.(repairActions := l.repairActions + 1) else l;
    var l2 := l1.(read := l.read + Elements(call.sources), disputes := if Disputes(s, l, reply) then l.disputes + {s.current.article} else l.disputes, challenged := DisputedAfter(s, call.slot, l, reply));
    var go := Freezes(env, s, call.slot, l, reply, l2.read);
    SameButCandidate(l2, a.loop) && a.progress == (IsRevised(s, call.slot) || go) && a.loop.candidate == if go then Some(s.current.article) else None
  }

  lemma AuthoredNotes(env: Env, s: Store, l: Loop, call: Call, reply: Reply, a: Action)
    requires call.mode.Author? && !IsCut(reply) && IsAuthored(env, s, l, call, reply, a)
    ensures Notes(env, l, call, reply, a.loop) && a.loop.noProgress == l.noProgress
  {
    hide Freezes, Disputes, DisputedAfter, IsRepair;
  }

  lemma AuthoredWrites(env: Env, s: Store, l: Loop, call: Call, reply: Reply, a: Action)
    requires call.mode.Author? && !IsCut(reply) && IsAuthored(env, s, l, call, reply, a)
    ensures Writes(env, s, l, call, reply, a.loop)
  {
    hide Freezes, Disputes, DisputedAfter, IsRepair;
  }

  lemma AuthoredDoes(env: Env, s: Store, l: Loop, call: Call, reply: Reply, a: Action)
    requires call.mode.Author? && !IsCut(reply) && IsAuthored(env, s, l, call, reply, a)
    ensures ActsOut(env, s, l, call, reply, a)
  {
    hide Freezes, Disputes, DisputedAfter, Notes, Writes, IsRepair;
    AuthoredNotes(env, s, l, call, reply, a);
    AuthoredWrites(env, s, l, call, reply, a);
  }

  lemma FinishDoes(env: Env, s: Store, l: Loop, call: Call, reply: Reply)
    requires call.mode.Author? && l.candidate.None? && reply.Finish? && call.slot !in s.receipts && Act(env, s, Informed(l, call), call, reply).ok
    ensures IsAuthored(env, s, l, call, reply, Act(env, s, Informed(l, call), call, reply))
  {
    hide Freeze, AllIn;
    var l0 := Informed(l, call);
    FreezeExactly(env, s, if l0.issues != [] then l0.(repairActions := l0.repairActions + 1) else l0, reply.expected);
  }

  lemma DisputeDoes(env: Env, s: Store, l: Loop, call: Call, reply: Reply)
    requires call.mode.Author? && l.candidate.None? && reply.Challenge? && call.slot !in s.receipts && Act(env, s, Informed(l, call), call, reply).ok
    ensures IsAuthored(env, s, l, call, reply, Act(env, s, Informed(l, call), call, reply))
  {
    hide Freeze, AllIn;
    var l0 := Informed(l, call);
    var l1 := if l0.issues != [] then l0.(repairActions := l0.repairActions + 1) else l0;
    if Disputes(s, l, reply) {
      FreezeExactly(env, s, l1.(disputes := l1.disputes + {s.current.article}, challenged := Some(s.current.article)), reply.expected);
    }
  }

  lemma SavedDoes(env: Env, s: Store, l: Loop, call: Call, reply: Reply)
    requires call.mode.Author? && l.candidate.None? && (reply.SaveSections? || reply.ReviseBlocks?)
    requires var a := Act(env, s, Informed(l, call), call, reply); a.ok && AllMade(s, a.writes) && DraftIsOf(s, call.slot, a.writes)
    ensures IsAuthored(env, s, l, call, reply, Act(env, s, Informed(l, call), call, reply))
  {
    hide SaveAndFinish, Revise, AllIn, AllMade, DraftIsOf;
    var l0 := Informed(l, call);
    var l1 := if l0.issues != [] then l0.(repairActions := l0.repairActions + 1) else l0;
    if reply.SaveSections? {
      SaveExactly(env, s, l1, call.slot, reply.save);
    } else {
      ReviseExactly(env, s, l1, call.slot, reply.patch);
    }
  }

  lemma AuthorDoes(env: Env, s: Store, l: Loop, call: Call, reply: Reply)
    requires call.mode.Author? && l.candidate.None? && !IsCut(reply)
    requires var a := Act(env, s, Informed(l, call), call, reply); a.ok && AllMade(s, a.writes) && DraftIsOf(s, call.slot, a.writes)
    ensures ActsOut(env, s, l, call, reply, Act(env, s, Informed(l, call), call, reply))
  {
    hide Act, ActsOut, AllMade, DraftIsOf, IsAuthored;
    if reply.SaveSections? || reply.ReviseBlocks? {
      SavedDoes(env, s, l, call, reply);
    } else {
      OthersDraftNothing(env, s, l, call, reply);
      NoDraftMade(s, call.slot, Act(env, s, Informed(l, call), call, reply).writes);
      if reply.Finish? {
        FinishDoes(env, s, l, call, reply);
      } else if reply.Challenge? {
        DisputeDoes(env, s, l, call, reply);
      } else {
        IdleDoes(env, s, l, call, reply);
      }
    }
    AuthoredDoes(env, s, l, call, reply, Act(env, s, Informed(l, call), call, reply));
  }

  lemma IdleDoes(env: Env, s: Store, l: Loop, call: Call, reply: Reply)
    requires call.mode.Author? && l.candidate.None? && !CountsAsRepair(reply) && call.slot !in s.receipts
    ensures IsAuthored(env, s, l, call, reply, Act(env, s, Informed(l, call), call, reply))
  {
  }

  lemma OthersDraftNothing(env: Env, s: Store, l: Loop, call: Call, reply: Reply)
    requires call.mode.Author? && !reply.SaveSections? && !reply.ReviseBlocks?
    ensures forall w | w in Act(env, s, Informed(l, call), call, reply).writes :: !w.PutDraft?
  {
    hide Freeze;
    var l0 := Informed(l, call);
    var l1 := if l0.issues != [] && CountsAsRepair(reply) then l0.(repairActions := l0.repairActions + 1) else l0;
    if reply.Finish? {
      FreezingDraftsNothing(env, s, l1, reply.expected);
    } else if reply.Challenge? {
      FreezingDraftsNothing(env, s, l1.(disputes := l1.disputes + {s.current.article}, challenged := Some(s.current.article)), reply.expected);
    }
  }

  lemma AcceptDoes(env: Env, s: Store, l: Loop, scope: Scope, report: Report)
    requires l.candidate.Some? && Accept(env, s, l, scope, report).ok
    ensures var a := Accept(env, s, l, scope, report); a.progress && SameButCandidate(l.(repairActions := a.loop.repairActions, challenged := a.loop.challenged, blocked := a.loop.blocked, cache := a.loop.cache), a.loop)
    ensures var l' := Accept(env, s, l, scope, report).loop;
      if l'.candidate == l.candidate then l'.repairActions == l.repairActions && l'.challenged == l.challenged && l'.blocked == l.blocked else l'.candidate.None? && l'.repairActions == 0 && l'.challenged == None
  {
    hide BlockingOnly, RecordOf, Without, Merged, IsBlocking;
  }

  lemma AdmittedAlike(env: Env, l: Loop, call: Call, scope: Scope, reply: Reply)
    ensures IsAdmitted(env, Informed(l, call), scope, reply) == IsAdmitted(env, l, scope, reply)
  {
    hide IsComplete;
  }

  lemma RefusedDoes(env: Env, s: Store, l: Loop, call: Call, reply: Reply)
    requires call.mode.Review? && !IsCut(reply) && !IsAdmitted(env, l, call.mode.scope, reply)
    ensures ActsOut(env, s, l, call, reply, Act(env, s, Informed(l, call), call, reply))
  {
    hide Accept, IsAdmitted, Freezes;
    AdmittedAlike(env, l, call, call.mode.scope, reply);
  }

  lemma ReviewDoes(env: Env, s: Store, l: Loop, call: Call, reply: Reply)
    requires call.mode.Review? && !IsCut(reply) && Act(env, s, Informed(l, call), call, reply).ok
    ensures ActsOut(env, s, l, call, reply, Act(env, s, Informed(l, call), call, reply))
  {
    hide Act, IsAdmitted, ActsOut;
    if IsAdmitted(env, l, call.mode.scope, reply) {
      ReviewIsAccepted(env, s, l, call, reply);
      AcceptedDoes(env, s, l, call, reply);
    } else {
      RefusedDoes(env, s, l, call, reply);
    }
  }

  lemma ReviewIsAccepted(env: Env, s: Store, l: Loop, call: Call, reply: Reply)
    requires call.mode.Review? && IsAdmitted(env, l, call.mode.scope, reply)
    ensures reply.Reviewed? && l.candidate.Some? && Act(env, s, Informed(l, call), call, reply) == Accept(env, s, Informed(l, call), call.mode.scope, reply.report)
  {
    hide Accept, IsComplete, Asked;
    AdmittedAlike(env, l, call, call.mode.scope, reply);
  }

  lemma AcceptedDoes(env: Env, s: Store, l: Loop, call: Call, reply: Reply)
    requires call.mode.Review? && IsAdmitted(env, l, call.mode.scope, reply) && reply.Reviewed? && l.candidate.Some?
    requires Accept(env, s, Informed(l, call), call.mode.scope, reply.report).ok
    ensures ActsOut(env, s, l, call, reply, Accept(env, s, Informed(l, call), call.mode.scope, reply.report))
  {
    hide Accept, IsAdmitted, Freezes;
    AcceptDoes(env, s, Informed(l, call), call.mode.scope, reply.report);
  }

  lemma SourceDoes(env: Env, s: Store, l: Loop, call: Call, reply: Reply)
    requires call.mode.Source? && l.candidate.None? && !IsCut(reply)
    ensures ActsOut(env, s, l, call, reply, Act(env, s, Informed(l, call), call, reply))
  {
    hide Raised, Freezes, Disputes;
  }

  lemma CutDoes(env: Env, s: Store, l: Loop, call: Call, reply: Reply)
    requires IsCut(reply) && Recover(env, s, l, call).ok && (call.mode.Author? ==> l.candidate.None? && call.slot !in s.receipts)
    ensures var l' := Recover(env, s, l, call).loop; DoesMost(env, s, l, call, reply, l') && l'.noProgress == l.noProgress + 1 && !Progresses(env, s, l, call, reply)
  {
    hide AllIn;
  }

  lemma DoesAlike(env: Env, s: Store, l: Loop, call: Call, reply: Reply, l': Loop, l'': Loop)
    requires DoesMost(env, s, l, call, reply, l') && l'' == l'.(pending := l''.pending, noProgress := l''.noProgress)
    ensures DoesMost(env, s, l, call, reply, l'')
  {
    hide Freezes, Disputes, DisputedAfter, Invalid;
  }

  /** A recorded turn does exactly this. */
  lemma TurnDoes(env: Env, s: Store, call: Call, reply: Reply)
    requires !call.mode.Review? ==> s.loop.candidate.None?
    requires var a := Turn(env, s, call, reply); a.ok && AllMade(s, a.writes) && DraftIsOf(s, call.slot, a.writes)
    ensures Does(env, s, s.loop, call, reply, Turn(env, s, call, reply).loop)
  {
    hide Act, Recover, AllMade, DraftIsOf, DoesMost, Progresses;
    var a, l := Turn(env, s, call, reply), s.loop;
    if IsCut(reply) {
      NoWritesInRecovery(env, s, l, call);
      NoDraftMade(s, call.slot, a.writes);
      CutDoes(env, s, l, call, reply);
      DoesAlike(env, s, l, call, reply, Recover(env, s, l, call).loop, a.loop);
    } else {
      match call.mode {
        case Source => SourceDoes(env, s, l, call, reply);
        case Review(_) => ReviewDoes(env, s, l, call, reply);
        case Author => AuthorDoes(env, s, l, call, reply);
      }
      DoesAlike(env, s, l, call, reply, Act(env, s, Informed(l, call), call, reply).loop, a.loop);
    }
  }
}
