/** Where the drafts of a run come from, with any crashes: each is the edit that the model asked for, applied
    to the draft before (internal/investigator/article_loop_wire.go, article_loop_patch.go;
    internal/store/article_draft.go). */
module LoopLineage {
  import opened Wrappers
  import opened ArticleLoop
  import opened LoopRecovery
  import opened LoopSteps
  import opened LoopRuns
  import ReviewMaterial

  // ----- drafts and the edits between them

  ghost predicate IsDraftOf(s: Store, first: Draft, d: Draft) {
    d == first || exists slot :: slot in s.receipts && s.receipts[slot].draft == d
  }

  /** The receipt of an edit of draft `b`. */
  ghost predicate IsEdit(env: Env, b: Draft, r: Receipt) {
    && r.args.expected == b.version && env.edit(b.article, r.args) == Edited(r.draft.article, r.rejected)
    && (r.noop <==> r.draft.article == b.article) && r.draft.version == if r.noop then b.version else b.version + 1
  }

  ghost predicate IsEdited(env: Env, s: Store, first: Draft, slot: nat)
    requires slot in s.receipts
  {
    exists b :: IsDraftOf(s, first, b) && IsEdit(env, b, s.receipts[slot])
  }

  /** The model asked for this edit, or for a patch of draft `b` that stands for it. */
  ghost predicate IsExpansion(env: Env, b: Draft, reply: Reply, save: Save) {
    reply.ReviseBlocks? && reply.patch.expected == b.version && env.expand(b.article, reply.patch) == Some(save)
  }

  ghost predicate IsAskedFor(env: Env, s: Store, first: Draft, slot: nat, save: Save) {
    && slot in s.replies
    && (s.replies[slot] == SaveSections(save) || exists b :: IsDraftOf(s, first, b) && IsExpansion(env, b, s.replies[slot], save))
  }

  /** A patch is expanded before it is written. */
  ghost predicate HasItsPlan(s: Store, slot: nat)
    requires slot in s.receipts
  {
    slot in s.replies && s.replies[slot].ReviseBlocks? ==> slot in s.plans && s.plans[slot] == s.receipts[slot].args
  }

  /** Every receipt is that of an edit that was asked for; the current draft is the last one; and a version
      stands for one draft. */
  ghost predicate Lineage(env: Env, s: Store, first: Draft) {
    && (forall slot | slot in s.receipts :: IsEdited(env, s, first, slot) && IsAskedFor(env, s, first, slot, s.receipts[slot].args) && HasItsPlan(s, slot))
    && (forall slot | slot in s.plans :: IsAskedFor(env, s, first, slot, s.plans[slot]))
    && IsDraftOf(s, first, s.current) && (forall d | IsDraftOf(s, first, d) :: d.version <= s.current.version)
    && forall d, e | IsDraftOf(s, first, d) && IsDraftOf(s, first, e) && d.version == e.version :: d == e
  }

  // ----- what a turn writes

  lemma SaveEdits(env: Env, s: Store, l: Loop, slot: nat, save: Save, w: Write)
    requires w in SaveAndFinish(env, s, l, slot, save).writes && w.PutDraft?
    ensures w.slot == slot && (slot !in s.receipts ==> w.receipt.args == save && IsEdit(env, s.current, w.receipt))
  {
    hide Freeze;
    var d, ws := SaveDraft(env, s, slot, save), SaveAndFinish(env, s, l, slot, save).writes;
    SaveWrites(env, s, l, slot, save);
    var i :| 0 <= i < |ws| && ws[i] == w;
    assert i == 0 && w in d.writes;
  }

  lemma FreezeEditsNothing(env: Env, s: Store, l: Loop, expected: nat, w: Write)
    requires w in Freeze(env, s, l, expected).writes
    ensures !w.PutDraft? && !w.PutPlan?
  {
    hide Freeze;
    FreezeWrites(env, s, l, expected);
  }

  lemma ReviseEdits(env: Env, s: Store, l: Loop, slot: nat, patch: Patch, w: Write)
    requires w in Revise(env, s, l, slot, patch).writes
    ensures Revise(env, s, l, slot, patch).writes[0].PutPlan? && Revise(env, s, l, slot, patch).writes[0].slot == slot
    ensures w.PutPlan? ==> w.slot == slot && (slot !in s.plans ==> IsExpansion(env, s.current, ReviseBlocks(patch), w.save))
    ensures w.PutDraft? ==> w.slot == slot && (slot !in s.receipts ==> IsEdit(env, s.current, w.receipt) && (slot in s.plans ==> w.receipt.args == s.plans[slot]))
  {
    hide SaveAndFinish;
    var planned := if slot in s.plans then Some(s.plans[slot])
                   else if s.current.version != patch.expected then None
                   else env.expand(s.current.article, patch);
    if planned.Some? {
      var b := SaveAndFinish(env, s, l, slot, planned.value);
      SaveDraftsOnly(env, s, l, slot, planned.value);
      if w in b.writes && w.PutDraft? {
        SaveEdits(env, s, l, slot, planned.value, w);
      }
    }
  }

  lemma SaveDraftsOnly(env: Env, s: Store, l: Loop, slot: nat, save: Save)
    ensures forall w | w in SaveAndFinish(env, s, l, slot, save).writes :: !w.PutPlan?
  {
    hide Freeze;
    var ws := SaveAndFinish(env, s, l, slot, save).writes;
    SaveWrites(env, s, l, slot, save);
    forall w | w in ws ensures !w.PutPlan? {
      var i :| 0 <= i < |ws| && ws[i] == w;
    }
  }

  /** The plans and drafts that a turn writes are those of its reply and of the current draft. */
  ghost predicate Edits(env: Env, s: Store, slot: nat, reply: Reply, w: Write) {
    && (w.PutPlan? ==> w.slot == slot && reply.ReviseBlocks? && (slot !in s.plans ==> IsExpansion(env, s.current, reply, w.save)))
    && (w.PutDraft? ==>
          && w.slot == slot && (reply.SaveSections? || reply.ReviseBlocks?)
          && (slot !in s.receipts ==>
                && IsEdit(env, s.current, w.receipt)
                && (reply == SaveSections(w.receipt.args) || (reply.ReviseBlocks? && (slot in s.plans ==> w.receipt.args == s.plans[slot])))))
  }

  lemma ActEdits(env: Env, s: Store, l: Loop, call: Call, reply: Reply, w: Write)
    requires w in Act(env, s, l, call, reply).writes
    ensures Edits(env, s, call.slot, reply, w)
  {
    hide Freeze, SaveAndFinish, Revise, Accept, IsAdmitted, IsEdit, IsExpansion;
    match call.mode {
      case Source =>
      case Review(scope) =>
        if IsAdmitted(env, l, scope, reply) {
          AdmittedEditsNothing(env, s, l, scope, reply, w);
        }
      case Author =>
        var l1 := if l.issues != [] && CountsAsRepair(reply) then l.(repairActions := l.repairActions + 1) else l;
        match reply {
          case SaveSections(save) =>
            SaveDraftsOnly(env, s, l1, call.slot, save);
            if w.PutDraft? {
              SaveEdits(env, s, l1, call.slot, save, w);
            }
          case ReviseBlocks(patch) => ReviseEdits(env, s, l1, call.slot, patch, w);
          case Finish(expected) => FreezeEditsNothing(env, s, l1, expected, w);
          case Challenge(expected, answered) =>
            var l2 := l1.(disputes := l1.disputes + {s.current.article}, challenged := Some(s.current.article));
            if w in Freeze(env, s, l2, expected).writes {
              FreezeEditsNothing(env, s, l2, expected, w);
            }
          case _ =>
        }
    }
  }

  lemma AdmittedEditsNothing(env: Env, s: Store, l: Loop, scope: ReviewMaterial.Scope, reply: Reply, w: Write)
    requires IsAdmitted(env, l, scope, reply) && w in Accept(env, s, l, scope, reply.report).writes
    ensures !w.PutPlan? && !w.PutDraft?
  {
    hide Accept, IsComplete;
    AcceptWrites(env, s, l, scope, reply.report);
    var ws := Accept(env, s, l, scope, reply.report).writes;
    var i :| 0 <= i < |ws| && ws[i] == w;
  }

  lemma TurnEdits(env: Env, s: Store, call: Call, reply: Reply, w: Write)
    requires w in Turn(env, s, call, reply).writes
    ensures Edits(env, s, call.slot, reply, w)
  {
    hide Act, Recover, Edits;
    NoWritesInRecovery(env, s, s.loop, call);
    ActEdits(env, s, Informed(s.loop, call), call, reply, w);
  }

  // ----- one durable write

  lemma ReceiptsGrow(s: Store, w: Write)
    requires !Has(s, w) && !Conflicts(s, w)
    ensures w.PutDraft? ==> w.slot !in s.receipts
    ensures Do(s, w).receipts == if w.PutDraft? then s.receipts[w.slot := w.receipt] else s.receipts
  {
  }

  lemma DraftsGrow(s: Store, w: Write, first: Draft)
    requires !Has(s, w) && !Conflicts(s, w)
    ensures forall d | IsDraftOf(s, first, d) :: IsDraftOf(Do(s, w), first, d)
    ensures forall d | IsDraftOf(Do(s, w), first, d) :: IsDraftOf(s, first, d) || (w.PutDraft? && d == w.receipt.draft)
  {
    hide Do, Has, Conflicts;
    ReceiptsGrow(s, w);
    forall d | IsDraftOf(s, first, d) ensures IsDraftOf(Do(s, w), first, d) {
      if d != first {
        var slot: nat :| slot in s.receipts && s.receipts[slot].draft == d;
        assert slot in Do(s, w).receipts && Do(s, w).receipts[slot].draft == d;
      }
    }
  }

  lemma AskedForStays(env: Env, s: Store, w: Write, first: Draft, slot: nat, save: Save)
    requires !Has(s, w) && !Conflicts(s, w) && IsAskedFor(env, s, first, slot, save)
    ensures IsAskedFor(env, Do(s, w), first, slot, save)
  {
    hide IsExpansion, IsDraftOf;
    DraftsGrow(s, w, first);
    RepliesGrow(s, w, slot);
  }

  lemma AskedIsAnswered(env: Env, s: Store, first: Draft, slot: nat, save: Save)
    requires IsAskedFor(env, s, first, slot, save)
    ensures slot in s.replies
  {
    hide IsDraftOf, IsExpansion;
  }

  lemma RepliesGrow(s: Store, w: Write, slot: nat)
    requires !Has(s, w) && !Conflicts(s, w) && slot in s.replies
    ensures slot in Do(s, w).replies && Do(s, w).replies[slot] == s.replies[slot]
  {
  }

  lemma PlanStays(s: Store, w: Write, slot: nat)
    requires !Has(s, w) && !Conflicts(s, w) && slot in s.receipts && slot in s.replies && HasItsPlan(s, slot)
    ensures slot in Do(s, w).receipts && HasItsPlan(Do(s, w), slot)
  {
  }

  lemma OtherWritesKeepLineage(env: Env, s: Store, w: Write, first: Draft)
    requires Lineage(env, s, first) && !Has(s, w) && !Conflicts(s, w) && !w.PutDraft? && !w.PutPlan?
    ensures Lineage(env, Do(s, w), first)
  {
    hide IsEdit, IsAskedFor, IsDraftOf, HasItsPlan;
    var t := Do(s, w);
    DraftsGrow(s, w, first);
    assert t.receipts == s.receipts && t.plans == s.plans && t.current == s.current;
    forall slot | slot in t.receipts ensures IsEdited(env, t, first, slot) && IsAskedFor(env, t, first, slot, t.receipts[slot].args) && HasItsPlan(t, slot) {
      AskedForStays(env, s, w, first, slot, s.receipts[slot].args);
      AskedIsAnswered(env, s, first, slot, s.receipts[slot].args);
      PlanStays(s, w, slot);
    }
    forall slot | slot in t.plans ensures IsAskedFor(env, t, first, slot, t.plans[slot]) {
      AskedForStays(env, s, w, first, slot, s.plans[slot]);
    }
  }

  lemma PlanKeepsLineage(env: Env, s: Store, w: Write, first: Draft)
    requires Lineage(env, s, first) && !Has(s, w) && !Conflicts(s, w) && w.PutPlan?
    requires w.slot in s.replies && IsExpansion(env, s.current, s.replies[w.slot], w.save)
    ensures Lineage(env, Do(s, w), first)
  {
    hide IsEdit, IsAskedFor, IsDraftOf, IsExpansion, HasItsPlan;
    var t := Do(s, w);
    DraftsGrow(s, w, first);
    forall slot | slot in t.receipts ensures IsEdited(env, t, first, slot) && IsAskedFor(env, t, first, slot, t.receipts[slot].args) && HasItsPlan(t, slot) {
      AskedForStays(env, s, w, first, slot, s.receipts[slot].args);
      AskedIsAnswered(env, s, first, slot, s.receipts[slot].args);
      PlanStays(s, w, slot);
    }
    forall slot | slot in t.plans ensures IsAskedFor(env, t, first, slot, t.plans[slot]) {
      if slot in s.plans {
        AskedForStays(env, s, w, first, slot, s.plans[slot]);
      } else {
        ExpansionIsAskedFor(env, s, first, slot, w.save);
        AskedForStays(env, s, w, first, slot, w.save);
      }
    }
  }

  lemma ExpansionIsAskedFor(env: Env, s: Store, first: Draft, slot: nat, save: Save)
    requires slot in s.replies && IsDraftOf(s, first, s.current) && IsExpansion(env, s.current, s.replies[slot], save)
    ensures IsAskedFor(env, s, first, slot, save)
  {
    hide IsDraftOf, IsExpansion;
  }

  lemma DraftKeepsLineage(env: Env, s: Store, w: Write, first: Draft)
    requires Lineage(env, s, first) && !Has(s, w) && !Conflicts(s, w) && w.PutDraft? && IsEdit(env, s.current, w.receipt)
    requires IsAskedFor(env, s, first, w.slot, w.receipt.args) && HasItsPlan(Do(s, w), w.slot)
    ensures Lineage(env, Do(s, w), first)
  {
    hide IsAskedFor, HasItsPlan;
    var t := Do(s, w);
    DraftsGrow(s, w, first);
    assert w.slot in t.receipts && t.receipts[w.slot] == w.receipt && t.current == w.receipt.draft;
    assert IsDraftOf(t, first, s.current);
    forall slot | slot in t.receipts ensures IsEdited(env, t, first, slot) && IsAskedFor(env, t, first, slot, t.receipts[slot].args) && HasItsPlan(t, slot) {
      if slot == w.slot {
        AskedForStays(env, s, w, first, slot, w.receipt.args);
      } else {
        EditedStays(env, s, t, first, slot);
        AskedForStays(env, s, w, first, slot, s.receipts[slot].args);
        AskedIsAnswered(env, s, first, slot, s.receipts[slot].args);
        PlanStays(s, w, slot);
      }
    }
    forall slot | slot in t.plans ensures IsAskedFor(env, t, first, slot, t.plans[slot]) {
      AskedForStays(env, s, w, first, slot, s.plans[slot]);
    }
    NextVersion(s, first, w.receipt);
  }

  lemma EditedStays(env: Env, s: Store, t: Store, first: Draft, slot: nat)
    requires slot in s.receipts && slot in t.receipts && t.receipts[slot] == s.receipts[slot] && IsEdited(env, s, first, slot)
    requires forall d | IsDraftOf(s, first, d) :: IsDraftOf(t, first, d)
    ensures IsEdited(env, t, first, slot)
  {
    hide IsDraftOf, IsEdit;
  }

  lemma NextVersion(s: Store, first: Draft, r: Receipt)
    requires IsDraftOf(s, first, s.current) && (forall d | IsDraftOf(s, first, d) :: d.version <= s.current.version)
    requires forall d, e | IsDraftOf(s, first, d) && IsDraftOf(s, first, e) && d.version == e.version :: d == e
    requires (r.noop <==> r.draft.article == s.current.article) && r.draft.version == if r.noop then s.current.version else s.current.version + 1
    ensures forall d | IsDraftOf(s, first, d) || d == r.draft :: d.version <= r.draft.version
    ensures forall d, e | (IsDraftOf(s, first, d) || d == r.draft) && (IsDraftOf(s, first, e) || e == r.draft) && d.version == e.version :: d == e
  {
    hide IsDraftOf;
    assert r.noop ==> r.draft == s.current;
  }

  lemma OpenKeepsLineage(env: Env, s: Store, k: nat, first: Draft)
    requires Lineage(env, s, first) && IsOpen(s) && k < |Intended(env, s).writes|
    requires var w := Intended(env, s).writes[k]; !Has(s, w) && !Conflicts(s, w)
    requires forall j | 0 <= j < k :: Has(s, Intended(env, s).writes[j])
    ensures Lineage(env, Do(s, Intended(env, s).writes[k]), first)
  {
    hide Turn, Intended, Lineage, Has, Conflicts, Do, IsEdit, IsExpansion;
    var a := TurnCourse(env, s);
    var call, ws, w := s.loop.pending.value, Intended(env, s).writes, Intended(env, s).writes[k];
    var reply := ReplyOf(env, s, call.slot);
    if w.PutPlan? || w.PutDraft? {
      assert Has(s, ws[0]);
      ReplyIs(s, ws[0]);
      assert w == a.writes[k - 1];
      TurnEdits(env, s, call, reply, w);
      SlotIsFree(s, w);
      if w.PutPlan? {
        PlanKeepsLineage(env, s, w, first);
      } else {
        if reply.ReviseBlocks? {
          RevisesFirst(env, s, call, reply, w);
          assert ws[1] == a.writes[0] && Has(s, ws[1]);
          PlanIs(s, ws[1]);
        }
        DraftIsAskedFor(env, s, first, call.slot, reply, w);
        DraftKeepsLineage(env, s, w, first);
      }
    } else {
      OtherWritesKeepLineage(env, s, w, first);
    }
  }

  lemma ReplyIs(s: Store, w: Write)
    requires Has(s, w) && w.PutReply?
    ensures w.slot in s.replies && s.replies[w.slot] == w.reply
  {
  }

  lemma PlanIs(s: Store, w: Write)
    requires Has(s, w) && w.PutPlan?
    ensures w.slot in s.plans
  {
  }

  lemma SlotIsFree(s: Store, w: Write)
    requires !Has(s, w) && !Conflicts(s, w)
    ensures w.PutPlan? ==> w.slot !in s.plans
    ensures w.PutDraft? ==> w.slot !in s.receipts
  {
  }

  lemma RevisesFirst(env: Env, s: Store, call: Call, reply: Reply, w: Write)
    requires reply.ReviseBlocks? && w in Turn(env, s, call, reply).writes && w.PutDraft?
    ensures var ws := Turn(env, s, call, reply).writes; ws[0].PutPlan? && ws[0].slot == call.slot && ws[0] != w
  {
    hide Recover, Revise, IsAdmitted;
    NoWritesInRecovery(env, s, s.loop, call);
    var l := Informed(s.loop, call);
    ReviseEdits(env, s, if l.issues != [] && CountsAsRepair(reply) then l.(repairActions := l.repairActions + 1) else l, call.slot, reply.patch, w);
  }

  lemma DraftIsAskedFor(env: Env, s: Store, first: Draft, slot: nat, reply: Reply, w: Write)
    requires Lineage(env, s, first) && w.PutDraft? && w.slot == slot && slot in s.replies && s.replies[slot] == reply
    requires reply == SaveSections(w.receipt.args) || (reply.ReviseBlocks? && slot in s.plans && w.receipt.args == s.plans[slot])
    ensures IsAskedFor(env, s, first, slot, w.receipt.args) && HasItsPlan(Do(s, w), slot)
  {
    hide IsEdited, IsDraftOf, IsExpansion;
  }

  lemma StepKeepsLineage(env: Env, s: Store, first: Draft)
    requires Lineage(env, s, first)
    ensures Lineage(env, Step(env, s), first)
  {
    hide Turn, Has, Conflicts, Gate, Prepare, Intended, Do, Lineage;
    if RemainingWork(env, s) != [] {
      var k := FirstMissing(s, Intended(env, s).writes);
      if IsOpen(s) {
        OpenKeepsLineage(env, s, k, first);
      } else {
        IdleCourse(env, s);
        OtherWritesKeepLineage(env, s, Intended(env, s).writes[k], first);
      }
    }
  }

  lemma {:induction false} StepsKeepLineage(env: Env, s: Store, first: Draft, n: nat)
    requires Lineage(env, s, first)
    ensures Lineage(env, Steps(env, s, n), first)
    decreases n
  {
    hide Lineage, Step;
    if n > 0 {
      StepKeepsLineage(env, s, first);
      StepsKeepLineage(env, Step(env, s), first, n - 1);
    }
  }

  /** MAIN RESULT: whatever the model replies and wherever the workers crash, every draft comes from the
      first one by the edits that were asked for, each applied to the draft that it expected. */
  lemma EveryDraftIsEdited(env: Env, s: Store, crashes: seq<nat>)
    requires IsInitial(env, s)
    ensures Lineage(env, Run(env, s, crashes), s.current)
  {
    hide Run, Steps;
    CrashesDoNotMatter(env, s, crashes);
    StepsKeepLineage(env, s, s.current, Made(env, s, crashes));
  }
}
