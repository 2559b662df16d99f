/** Crashes are invisible: a worker that takes over after any durable write makes exactly the writes
    that the first worker would still have made (internal/investigator/article_loop.go). */
module LoopRecovery {
  import Lists
  import opened Wrappers
  import ReviewMaterial
  import opened ArticleLoop

  /** The intended writes that are still to be made, up to a refused one. */
  function Remaining(s: Store, ws: seq<Write>): seq<Write>
    decreases |ws|
  {
    if ws == [] then []
    else if Has(s, ws[0]) then Remaining(s, ws[1..])
    else if Conflicts(s, ws[0]) then []
    else [ws[0]] + Remaining(Do(s, ws[0]), ws[1..])
  }

  /** What a worker that boots on this store durably writes up to its next checkpoint. */
  function RemainingWork(env: Env, s: Store): seq<Write> {
    Remaining(s, Intended(env, s).writes)
  }

  function DoAll(s: Store, ws: seq<Write>): Store
    decreases |ws|
  {
    if ws == [] then s else DoAll(Do(s, ws[0]), ws[1..])
  }

  /** One durable write; whether the same worker or another one makes it. */
  function Step(env: Env, s: Store): Store {
    if RemainingWork(env, s) == [] then s else Do(s, RemainingWork(env, s)[0])
  }

  function Steps(env: Env, s: Store, n: nat): Store
    decreases n
  {
    if n == 0 then s else Steps(env, Step(env, s), n - 1)
  }

  // ----- the list of remaining writes

  lemma {:induction false} FirstMissing(s: Store, ws: seq<Write>) returns (k: nat)
    requires Remaining(s, ws) != []
    ensures k < |ws| && ws[k] == Remaining(s, ws)[0] && !Has(s, ws[k]) && !Conflicts(s, ws[k])
    ensures forall j | 0 <= j < k :: Has(s, ws[j])
  {
    hide Has, Conflicts, Do;
    if Has(s, ws[0]) {
      var rest := FirstMissing(s, ws[1..]);
      k := rest + 1;
    } else {
      k := 0;
    }
  }

  ghost predicate Extends<K, V>(m: map<K, V>, n: map<K, V>) {
    forall k {:trigger k in m} {:trigger n[k]} | k in m :: k in n && n[k] == m[k]
  }

  lemma MadeOnce(s: Store, w: Write)
    requires !Has(s, w) && !Conflicts(s, w)
    ensures var t := Do(s, w);
      && Extends(s.inputs, t.inputs) && Extends(s.replies, t.replies) && Extends(s.turns, t.turns) && Extends(s.plans, t.plans)
      && Extends(s.receipts, t.receipts) && Extends(s.reviews, t.reviews) && Extends(s.approvals, t.approvals)
      && s.candidates <= t.candidates && Extends(s.sourcePlans, t.sourcePlans) && (s.published.Some? ==> t.published == s.published)
  {
  }

  lemma HasAfter(s: Store, w: Write, v: Write)
    requires !Has(s, w) && !Conflicts(s, w) && Has(s, v)
    ensures Has(Do(s, w), v)
  {
    hide Do, Conflicts;
    MadeOnce(s, w);
  }

  lemma {:induction false} RemainingTail(s: Store, ws: seq<Write>)
    requires Remaining(s, ws) != [] && !Remaining(s, ws)[0].PutCheckpoint?
    ensures Remaining(Do(s, Remaining(s, ws)[0]), ws) == Remaining(s, ws)[1..]
  {
    hide Conflicts, Do, Has;
    var w := Remaining(s, ws)[0];
    if Has(s, ws[0]) {
      var k := FirstMissing(s, ws);
      HasAfter(s, w, ws[0]);
      RemainingTail(s, ws[1..]);
    } else {
      MadeIsHad(s, w);
      assert ([w] + Remaining(Do(s, w), ws[1..]))[1..] == Remaining(Do(s, w), ws[1..]);
    }
  }

  lemma MadeIsHad(s: Store, w: Write)
    requires !w.PutCheckpoint?
    ensures Has(Do(s, w), w)
  {
  }

  // ----- what a turn depends on

  /** Both stores give the same answers to everything a turn reads. */
  ghost predicate ReadsAlike(s: Store, t: Store) {
    && t.calls == s.calls && t.loop == s.loop && t.current == s.current && t.receipts == s.receipts && t.plans == s.plans
    && forall key: Key {:trigger key in s.reviews} {:trigger key in t.reviews} | key.Accepted? ::
      (key in s.reviews <==> key in t.reviews) && (key in s.reviews ==> s.reviews[key] == t.reviews[key])
  }

  lemma {:induction false} ReuseAlike(env: Env, s: Store, t: Store, l: Loop, h: Article, scopes: seq<ReviewMaterial.Scope>, n: nat)
    requires ReadsAlike(s, t) && n <= |scopes|
    ensures ReuseFirst(env, s, l, h, scopes, n) == ReuseFirst(env, t, l, h, scopes, n)
  {
    if n > 0 {
      ReuseAlike(env, s, t, l, h, scopes, n - 1);
    }
  }

  lemma FreezeAlike(env: Env, s: Store, t: Store, l: Loop, expected: nat)
    requires ReadsAlike(s, t)
    ensures Freeze(env, s, l, expected) == Freeze(env, t, l, expected)
  {
    hide ReuseFirst;
    var h := s.current.article;
    var l1 := l.(candidate := Some(h), draftVersion := s.current.version, keys := [], issues := []);
    var planned := env.plan(l1, h);
    if planned.Some? {
      ReuseAlike(env, s, t, l1, h, planned.value, |planned.value|);
    }
  }

  lemma DraftAlike(env: Env, s: Store, t: Store, slot: nat, save: Save)
    requires ReadsAlike(s, t)
    ensures SaveDraft(env, s, slot, save) == SaveDraft(env, t, slot, save)
    ensures forall receipt :: ReadsAlike(AfterDraft(s, slot, receipt), AfterDraft(t, slot, receipt))
  {
  }

  lemma SaveAlike(env: Env, s: Store, t: Store, l: Loop, slot: nat, save: Save)
    requires ReadsAlike(s, t)
    ensures SaveAndFinish(env, s, l, slot, save) == SaveAndFinish(env, t, l, slot, save)
  {
    hide Freeze, SaveDraft, AfterDraft, ReadsAlike;
    DraftAlike(env, s, t, slot, save);
    var w := SaveDraft(env, s, slot, save);
    if w.receipt.Some? {
      var receipt := w.receipt.value;
      var l1 := if receipt.noop then l else l.(challenged := None, candidate := None, scopes := [], keys := [], draftVersion := 0);
      var s1, t1 := AfterDraft(s, slot, receipt), AfterDraft(t, slot, receipt);
      assert s1.current == t1.current by { SameCurrent(s1, t1); }
      FreezeAlike(env, s1, t1, l1, s1.current.version);
    }
  }

  lemma SameCurrent(s: Store, t: Store)
    requires ReadsAlike(s, t)
    ensures s.current == t.current && s.calls == t.calls
  {
  }

  lemma ActAlike(env: Env, s: Store, t: Store, l: Loop, call: Call, reply: Reply)
    requires ReadsAlike(s, t)
    ensures Act(env, s, l, call, reply) == Act(env, t, l, call, reply)
  {
    hide Freeze, SaveAndFinish, ReadsAlike;
    AcceptAlike(env, s, t, l, call, reply);
    SameCurrent(s, t);
    var l1 := if l.issues != [] && CountsAsRepair(reply) then l.(repairActions := l.repairActions + 1) else l;
    match reply
    case SaveSections(save) => SaveAlike(env, s, t, l1, call.slot, save);
    case ReviseBlocks(patch) => ReviseAlike(env, s, t, l1, call.slot, patch);
    case Finish(expected) => FreezeAlike(env, s, t, l1, expected);
    case Challenge(expected, answered) => DisputeAlike(env, s, t, l1, expected, answered);
    case _ =>
  }

  lemma AcceptAlike(env: Env, s: Store, t: Store, l: Loop, call: Call, reply: Reply)
    requires ReadsAlike(s, t)
    ensures call.mode.Review? && reply.Reviewed? ==> Accept(env, s, l, call.mode.scope, reply.report) == Accept(env, t, l, call.mode.scope, reply.report)
  {
    hide BlockingOnly, Without;
  }

  lemma ReviseAlike(env: Env, s: Store, t: Store, l: Loop, slot: nat, patch: Patch)
    requires ReadsAlike(s, t)
    ensures Revise(env, s, l, slot, patch) == Revise(env, t, l, slot, patch)
  {
    hide SaveAndFinish;
    var planned := if slot in s.plans then Some(s.plans[slot])
                   else if s.current.version != patch.expected then None
                   else env.expand(s.current.article, patch);
    if planned.Some? {
      SaveAlike(env, s, t, l, slot, planned.value);
    }
  }

  lemma DisputeAlike(env: Env, s: Store, t: Store, l: Loop, expected: nat, answered: bool)
    requires ReadsAlike(s, t)
    ensures Dispute(env, s, l, expected, answered) == Dispute(env, t, l, expected, answered)
  {
    hide Freeze;
    var h := s.current.article;
    FreezeAlike(env, s, t, l.(disputes := l.disputes + {h}, challenged := Some(h)), expected);
  }

  lemma TurnAlike(env: Env, s: Store, t: Store, call: Call, reply: Reply)
    requires ReadsAlike(s, t)
    ensures Turn(env, s, call, reply) == Turn(env, t, call, reply)
  {
    hide Act;
    ActAlike(env, s, t, s.loop.(read := s.loop.read + Lists.Elements(call.sources)), call, reply);
  }

  // ----- which writes a turn makes

  predicate FreezesOnly(w: Write) {
    w.PutCandidate? || (w.PutReview? && w.key.Reused?)
  }

  lemma {:induction false} ReuseWrites(env: Env, s: Store, l: Loop, h: Article, scopes: seq<ReviewMaterial.Scope>, n: nat)
    requires n <= |scopes|
    ensures forall w | w in ReuseFirst(env, s, l, h, scopes, n).writes :: FreezesOnly(w)
  {
    if n > 0 {
      ReuseWrites(env, s, l, h, scopes, n - 1);
    }
  }

  lemma FreezeWrites(env: Env, s: Store, l: Loop, expected: nat)
    ensures forall w | w in Freeze(env, s, l, expected).writes :: FreezesOnly(w)
  {
    hide ReuseFirst;
    var h := s.current.article;
    var l1 := l.(candidate := Some(h), draftVersion := s.current.version, keys := [], issues := []);
    var planned := env.plan(l1, h);
    if planned.Some? {
      ReuseWrites(env, s, l1, h, planned.value, |planned.value|);
    }
  }

  lemma SaveWrites(env: Env, s: Store, l: Loop, slot: nat, save: Save)
    ensures var ws := SaveAndFinish(env, s, l, slot, save).writes;
      && (forall i | 0 <= i < |ws| :: ws[i].PutDraft? ==> i == 0 && ws[i].slot == slot)
      && (forall i | 0 <= i < |ws| :: ws[i].PutDraft? || FreezesOnly(ws[i]))
  {
    hide Freeze, FreezesOnly;
    var w := SaveDraft(env, s, slot, save);
    if w.receipt.Some? {
      var receipt := w.receipt.value;
      var l1 := if receipt.noop then l else l.(challenged := None, candidate := None, scopes := [], keys := [], draftVersion := 0);
      var s1 := AfterDraft(s, slot, receipt);
      var f := Freeze(env, s1, l1, s1.current.version).writes;
      FreezeWrites(env, s1, l1, s1.current.version);
      NoDraftInFreeze(f);
      var all := w.writes + f;
      forall i | 0 <= i < |all| ensures (all[i].PutDraft? ==> i == 0 && all[i].slot == slot) && (all[i].PutDraft? || FreezesOnly(all[i])) {
        if i >= |w.writes| {
          assert all[i] == f[i - |w.writes|] && f[i - |w.writes|] in f;
        }
      }
    }
  }

  lemma NoDraftInFreeze(ws: seq<Write>)
    requires forall w | w in ws :: FreezesOnly(w)
    ensures forall w | w in ws :: !w.PutDraft? && !w.PutPlan?
  {
  }

  // ----- stability of a turn

  lemma AlikeAfter(s: Store, w: Write)
    requires w.PutInput? || w.PutReply? || w.PutSources? || w.PutApproval? || FreezesOnly(w)
    ensures ReadsAlike(s, Do(s, w))
  {
  }

  lemma PlanIsReplayed(env: Env, s: Store, l: Loop, slot: nat, patch: Patch)
    requires Revise(env, s, l, slot, patch).writes != []
    ensures var w := Revise(env, s, l, slot, patch).writes[0];
      w.PutPlan? && Revise(env, Do(s, w), l, slot, patch) == Revise(env, s, l, slot, patch)
  {
    hide SaveAndFinish;
    var a := Revise(env, s, l, slot, patch);
    var planned := if slot in s.plans then Some(s.plans[slot])
                   else if s.current.version != patch.expected then None
                   else env.expand(s.current.article, patch);
    var t := Do(s, PutPlan(slot, planned.value));
    SaveIgnoresPlans(env, s, t, l, slot, planned.value);
  }

  lemma SaveIgnoresPlans(env: Env, s: Store, t: Store, l: Loop, slot: nat, save: Save)
    requires t == s.(plans := t.plans)
    ensures SaveAndFinish(env, s, l, slot, save) == SaveAndFinish(env, t, l, slot, save)
  {
    hide Freeze, SaveDraft, AfterDraft;
    DraftIgnoresPlans(env, s, t, slot, save);
    var w := SaveDraft(env, s, slot, save);
    if w.receipt.Some? {
      var receipt := w.receipt.value;
      var l1 := if receipt.noop then l else l.(challenged := None, candidate := None, scopes := [], keys := [], draftVersion := 0);
      FreezeIgnoresPlans(env, AfterDraft(s, slot, receipt), AfterDraft(t, slot, receipt), l1);
    }
  }

  lemma DraftIgnoresPlans(env: Env, s: Store, t: Store, slot: nat, save: Save)
    requires t == s.(plans := t.plans)
    ensures SaveDraft(env, s, slot, save) == SaveDraft(env, t, slot, save)
    ensures forall receipt :: AfterDraft(t, slot, receipt) == AfterDraft(s, slot, receipt).(plans := t.plans)
  {
  }

  lemma FreezeIgnoresPlans(env: Env, s: Store, t: Store, l: Loop)
    requires t == s.(plans := t.plans)
    ensures Freeze(env, s, l, s.current.version) == Freeze(env, t, l, t.current.version)
  {
    hide ReuseFirst;
    var h := s.current.article;
    var l1 := l.(candidate := Some(h), draftVersion := s.current.version, keys := [], issues := []);
    var planned := env.plan(l1, h);
    if planned.Some? {
      ReuseIgnoresPlans(env, s, t, l1, h, planned.value, |planned.value|);
    }
  }

  lemma {:induction false} ReuseIgnoresPlans(env: Env, s: Store, t: Store, l: Loop, h: Article, scopes: seq<ReviewMaterial.Scope>, n: nat)
    requires t == s.(plans := t.plans) && n <= |scopes|
    ensures ReuseFirst(env, s, l, h, scopes, n) == ReuseFirst(env, t, l, h, scopes, n)
  {
    if n > 0 {
      ReuseIgnoresPlans(env, s, t, l, h, scopes, n - 1);
    }
  }

  /** Once its receipt is durable, an edit is not applied again but replayed. */
  lemma DraftIsReplayed(env: Env, s: Store, l: Loop, slot: nat, save: Save)
    requires slot !in s.receipts && SaveDraft(env, s, slot, save).receipt.Some?
    ensures var receipt := SaveDraft(env, s, slot, save).receipt.value;
      && SaveDraft(env, s, slot, save).writes == [PutDraft(slot, receipt)]
      && SaveAndFinish(env, Do(s, PutDraft(slot, receipt)), l, slot, save) == SaveAndFinish(env, s, l, slot, save)
  {
    hide Freeze;
    var receipt := SaveDraft(env, s, slot, save).receipt.value;
    var t := Do(s, PutDraft(slot, receipt));
    assert t.receipts[slot] == receipt && receipt.args == save;
    assert SaveDraft(env, t, slot, save) == Written([PutDraft(slot, receipt)], Some(receipt), true);
    assert AfterDraft(t, slot, receipt) == t == AfterDraft(s, slot, receipt);
  }

  lemma SaveStable(env: Env, s: Store, l: Loop, slot: nat, save: Save, k: nat)
    requires k < |SaveAndFinish(env, s, l, slot, save).writes|
    requires !Has(s, SaveAndFinish(env, s, l, slot, save).writes[k]) && !Conflicts(s, SaveAndFinish(env, s, l, slot, save).writes[k])
    ensures var w := SaveAndFinish(env, s, l, slot, save).writes[k];
      SaveAndFinish(env, Do(s, w), l, slot, save) == SaveAndFinish(env, s, l, slot, save)
  {
    hide Freeze, SaveDraft, AfterDraft, FreezesOnly, ReadsAlike;
    var w := SaveAndFinish(env, s, l, slot, save).writes[k];
    SaveWrites(env, s, l, slot, save);
    if w.PutDraft? {
      DraftWritten(env, s, l, slot, save);
      DraftIsReplayed(env, s, l, slot, save);
    } else {
      AlikeAfter(s, w);
      SaveAlike(env, s, Do(s, w), l, slot, save);
    }
  }

  lemma DraftWritten(env: Env, s: Store, l: Loop, slot: nat, save: Save)
    requires SaveAndFinish(env, s, l, slot, save).writes != [] && SaveAndFinish(env, s, l, slot, save).writes[0].PutDraft?
    ensures var d := SaveDraft(env, s, slot, save);
      d.receipt.Some? && SaveAndFinish(env, s, l, slot, save).writes[0] == PutDraft(slot, d.receipt.value)
  {
    hide Freeze;
  }

  lemma ReviseStable(env: Env, s: Store, l: Loop, slot: nat, patch: Patch, k: nat)
    requires k < |Revise(env, s, l, slot, patch).writes|
    requires !Has(s, Revise(env, s, l, slot, patch).writes[k]) && !Conflicts(s, Revise(env, s, l, slot, patch).writes[k])
    requires forall j | 0 <= j < k :: Has(s, Revise(env, s, l, slot, patch).writes[j])
    ensures var w := Revise(env, s, l, slot, patch).writes[k];
      Revise(env, Do(s, w), l, slot, patch) == Revise(env, s, l, slot, patch)
  {
    hide SaveAndFinish;
    if k == 0 {
      PlanIsReplayed(env, s, l, slot, patch);
    } else {
      var ws := Revise(env, s, l, slot, patch).writes;
      assert ws[0].PutPlan? && Has(s, ws[0]);
      var save := s.plans[slot];
      assert ws == [PutPlan(slot, save)] + SaveAndFinish(env, s, l, slot, save).writes;
      assert ws[k] == SaveAndFinish(env, s, l, slot, save).writes[k - 1];
      SaveStable(env, s, l, slot, save, k - 1);
      KeepsPlan(s, ws[k], slot);
    }
  }

  lemma KeepsPlan(s: Store, w: Write, slot: nat)
    requires slot in s.plans && !Has(s, w) && !Conflicts(s, w)
    ensures slot in Do(s, w).plans && Do(s, w).plans[slot] == s.plans[slot]
  {
  }

  lemma FreezeStable(env: Env, s: Store, l: Loop, expected: nat, k: nat)
    requires k < |Freeze(env, s, l, expected).writes|
    ensures var w := Freeze(env, s, l, expected).writes[k]; Freeze(env, Do(s, w), l, expected) == Freeze(env, s, l, expected) && FreezesOnly(w)
  {
    hide Freeze, FreezesOnly, ReadsAlike;
    FreezeWrites(env, s, l, expected);
    var w := Freeze(env, s, l, expected).writes[k];
    assert FreezesOnly(w);
    AlikeAfter(s, w);
    FreezeAlike(env, s, Do(s, w), l, expected);
  }

  lemma AcceptStable(env: Env, s: Store, t: Store, l: Loop, scope: ReviewMaterial.Scope, report: Report)
    requires t.calls == s.calls
    ensures Accept(env, t, l, scope, report) == Accept(env, s, l, scope, report)
  {
    hide BlockingOnly, Without;
  }

  lemma DisputeStable(env: Env, s: Store, l: Loop, expected: nat, answered: bool, k: nat)
    requires k < |Dispute(env, s, l, expected, answered).writes|
    ensures var w := Dispute(env, s, l, expected, answered).writes[k];
      Dispute(env, Do(s, w), l, expected, answered) == Dispute(env, s, l, expected, answered)
  {
    hide Freeze, FreezesOnly;
    var h := s.current.article;
    FreezeStable(env, s, l.(disputes := l.disputes + {h}, challenged := Some(h)), expected, k);
    var w := Dispute(env, s, l, expected, answered).writes[k];
    FreezeKeepsDraft(s, w);
  }

  lemma FreezeKeepsDraft(s: Store, w: Write)
    requires FreezesOnly(w)
    ensures Do(s, w).current == s.current
  {
  }

  lemma ActStable(env: Env, s: Store, l: Loop, call: Call, reply: Reply, k: nat)
    requires k < |Act(env, s, l, call, reply).writes|
    requires !Has(s, Act(env, s, l, call, reply).writes[k]) && !Conflicts(s, Act(env, s, l, call, reply).writes[k])
    requires forall j | 0 <= j < k :: Has(s, Act(env, s, l, call, reply).writes[j])
    ensures var w := Act(env, s, l, call, reply).writes[k]; Act(env, Do(s, w), l, call, reply) == Act(env, s, l, call, reply)
  {
    hide Freeze, SaveAndFinish, Revise, Dispute, Accept, Has, Conflicts;
    var w := Act(env, s, l, call, reply).writes[k];
    if call.mode.Review? && reply.Reviewed? {
      AcceptWrites(env, s, l, call.mode.scope, reply.report);
      KeepsLoop(s, w);
      AcceptStable(env, s, Do(s, w), l, call.mode.scope, reply.report);
    } else if call.mode.Author? {
      var l1 := if l.issues != [] && CountsAsRepair(reply) then l.(repairActions := l.repairActions + 1) else l;
      match reply
      case SaveSections(save) => SaveStable(env, s, l1, call.slot, save, k);
      case ReviseBlocks(patch) => ReviseStable(env, s, l1, call.slot, patch, k);
      case Finish(expected) => FreezeStable(env, s, l1, expected, k);
      case Challenge(expected, answered) => DisputeStable(env, s, l1, expected, answered, k);
      case _ =>
    }
  }

  lemma AcceptWrites(env: Env, s: Store, l: Loop, scope: ReviewMaterial.Scope, report: Report)
    ensures forall i | 0 <= i < |Accept(env, s, l, scope, report).writes| ::
      Accept(env, s, l, scope, report).writes[i].PutReview? || Accept(env, s, l, scope, report).writes[i].PutApproval?
  {
    hide BlockingOnly, Without;
  }

  predicate MadeInTurn(w: Write) {
    !w.PutCheckpoint? && !w.PutTurn? && !w.PutInput? && !w.PutReply? && !w.PutPublished?
  }

  lemma FreezesInTurn(ws: seq<Write>)
    requires forall w | w in ws :: FreezesOnly(w)
    ensures forall i | 0 <= i < |ws| :: MadeInTurn(ws[i])
  {
    forall i | 0 <= i < |ws| ensures MadeInTurn(ws[i]) {
      assert ws[i] in ws;
    }
  }

  lemma SavesInTurn(env: Env, s: Store, l: Loop, slot: nat, save: Save)
    ensures forall i | 0 <= i < |SaveAndFinish(env, s, l, slot, save).writes| :: MadeInTurn(SaveAndFinish(env, s, l, slot, save).writes[i])
  {
    hide SaveAndFinish;
    SaveWrites(env, s, l, slot, save);
  }

  lemma RevisesInTurn(env: Env, s: Store, l: Loop, slot: nat, patch: Patch)
    ensures forall i | 0 <= i < |Revise(env, s, l, slot, patch).writes| :: MadeInTurn(Revise(env, s, l, slot, patch).writes[i])
  {
    hide SaveAndFinish;
    var planned := if slot in s.plans then Some(s.plans[slot])
                   else if s.current.version != patch.expected then None
                   else env.expand(s.current.article, patch);
    if planned.Some? {
      SavesInTurn(env, s, l, slot, planned.value);
    }
  }

  lemma ActsInTurn(env: Env, s: Store, l: Loop, call: Call, reply: Reply)
    ensures forall i | 0 <= i < |Act(env, s, l, call, reply).writes| :: MadeInTurn(Act(env, s, l, call, reply).writes[i])
  {
    hide Freeze, SaveAndFinish, Revise, Accept;
    if call.mode.Review? && reply.Reviewed? {
      AcceptWrites(env, s, l, call.mode.scope, reply.report);
    } else if call.mode.Author? {
      var l1 := if l.issues != [] && CountsAsRepair(reply) then l.(repairActions := l.repairActions + 1) else l;
      match reply
      case SaveSections(save) => SavesInTurn(env, s, l1, call.slot, save);
      case ReviseBlocks(patch) => RevisesInTurn(env, s, l1, call.slot, patch);
      case Finish(expected) => FreezeWrites(env, s, l1, expected); FreezesInTurn(Freeze(env, s, l1, expected).writes);
      case Challenge(expected, answered) =>
        var l2 := l1.(disputes := l1.disputes + {s.current.article}, challenged := Some(s.current.article));
        FreezeWrites(env, s, l2, expected);
        FreezesInTurn(Freeze(env, s, l2, expected).writes);
      case _ =>
    }
  }

  lemma TurnStable(env: Env, s: Store, call: Call, reply: Reply, k: nat)
    requires k < |Turn(env, s, call, reply).writes|
    requires !Has(s, Turn(env, s, call, reply).writes[k]) && !Conflicts(s, Turn(env, s, call, reply).writes[k])
    requires forall j | 0 <= j < k :: Has(s, Turn(env, s, call, reply).writes[j])
    ensures var w := Turn(env, s, call, reply).writes[k]; Turn(env, Do(s, w), call, reply) == Turn(env, s, call, reply) && MadeInTurn(w)
  {
    hide Act, Has, Conflicts;
    var l := s.loop.(read := s.loop.read + Lists.Elements(call.sources));
    var w := Turn(env, s, call, reply).writes[k];
    NoWritesInRecovery(env, s, s.loop, call);
    ActsInTurn(env, s, l, call, reply);
    ActStable(env, s, l, call, reply, k);
    KeepsLoop(s, w);
  }

  lemma NoWritesInRecovery(env: Env, s: Store, l: Loop, call: Call)
    ensures Recover(env, s, l, call).writes == []
  {
  }

  lemma KeepsLoop(s: Store, w: Write)
    requires MadeInTurn(w)
    ensures var t := Do(s, w);
      t.loop == s.loop && t.calls == s.calls && t.turns == s.turns && t.replies == s.replies && t.published == s.published
  {
  }

  // ----- stability of a course

  lemma OpenTurn(env: Env, s: Store, k: nat)
    requires s.published.None? && s.loop.pending.Some? && s.loop.pending.value.slot !in s.turns
    requires k < |Intended(env, s).writes| && !Has(s, Intended(env, s).writes[k]) && !Conflicts(s, Intended(env, s).writes[k])
    requires forall j | 0 <= j < k :: Has(s, Intended(env, s).writes[j])
    requires MadeInTurn(Intended(env, s).writes[k]) || Intended(env, s).writes[k].PutReply?
    ensures Intended(env, Do(s, Intended(env, s).writes[k])) == Intended(env, s)
  {
    hide Turn, Has, Conflicts, Prepare, Gate;
    var call := s.loop.pending.value;
    var reply := ReplyOf(env, s, call.slot);
    var a := Turn(env, s, call, reply);
    var ws, w := Intended(env, s).writes, Intended(env, s).writes[k];
    var tail := if a.ok then [PutTurn(call.slot, a.loop), PutCheckpoint(s.calls, a.loop)] else [];
    assert ws == [PutReply(call.slot, reply)] + a.writes + tail;
    if k == 0 {
      AlikeAfter(s, w);
      TurnAlike(env, s, Do(s, w), call, reply);
    } else if k <= |a.writes| {
      assert w == a.writes[k - 1];
      forall j | 0 <= j < k - 1 ensures Has(s, a.writes[j]) {
        assert ws[j + 1] == a.writes[j];
      }
      TurnStable(env, s, call, reply, k - 1);
      KeepsLoop(s, w);
    } else {
      assert false;
    }
  }

  /** MAIN RESULT: after any durable write, whichever worker continues makes exactly the writes that
      the first one would still have made. No crash is visible in what is stored. */
  lemma CrashIsInvisible(env: Env, s: Store)
    requires RemainingWork(env, s) != [] && !RemainingWork(env, s)[0].PutCheckpoint?
    ensures RemainingWork(env, Do(s, RemainingWork(env, s)[0])) == RemainingWork(env, s)[1..]
  {
    hide Turn, Has, Conflicts, Prepare, Gate, Intended, Do;
    var ws, w := Intended(env, s).writes, RemainingWork(env, s)[0];
    var k := FirstMissing(s, ws);
    RemainingTail(s, ws);
    if w.PutTurn? {
      TurnThenCheckpoint(env, s, k);
    } else if w.PutPublished? {
      PublicationIsLast(env, s, k);
    } else if w.PutInput? {
      InputIsStable(env, s, k);
    } else {
      CourseKinds(env, s, k);
      OpenTurn(env, s, k);
    }
  }

  lemma CourseKinds(env: Env, s: Store, k: nat)
    requires k < |Intended(env, s).writes|
    ensures var w := Intended(env, s).writes[k];
      MadeInTurn(w) || w.PutReply? ==> s.published.None? && s.loop.pending.Some? && s.loop.pending.value.slot !in s.turns
  {
    hide Turn, Prepare, Gate;
  }

  lemma {:induction false} RemainingFrom(s: Store, ws: seq<Write>, k: nat)
    requires k <= |ws| && forall j | 0 <= j < k :: Has(s, ws[j])
    ensures Remaining(s, ws) == Remaining(s, ws[k..])
  {
    hide Has, Conflicts, Do;
    if k > 0 {
      RemainingFrom(s, ws[1..], k - 1);
      assert ws[1..][k - 1..] == ws[k..];
    } else {
      assert ws[0..] == ws;
    }
  }

  ghost predicate IsOpen(s: Store) {
    s.published.None? && s.loop.pending.Some? && s.loop.pending.value.slot !in s.turns
  }

  /** The course of an open turn: the reply, what acting on it writes, the turn, the checkpoint. */
  lemma TurnCourse(env: Env, s: Store) returns (a: Action)
    requires IsOpen(s)
    ensures var slot, ws := s.loop.pending.value.slot, Intended(env, s).writes;
      && ws == [PutReply(slot, ReplyOf(env, s, slot))] + a.writes + (if a.ok then [PutTurn(slot, a.loop), PutCheckpoint(s.calls, a.loop)] else [])
      && (forall i | 1 <= i <= |a.writes| :: MadeInTurn(ws[i]))
      && a == Turn(env, s, s.loop.pending.value, ReplyOf(env, s, slot))
  {
    hide Turn, Prepare, Gate;
    var call := s.loop.pending.value;
    var reply := ReplyOf(env, s, call.slot);
    a := Turn(env, s, call, reply);
    TurnMakes(env, s, call, reply);
    var ws := Intended(env, s).writes;
    forall i | 1 <= i <= |a.writes| ensures MadeInTurn(ws[i]) {
      assert ws[i] == a.writes[i - 1];
    }
  }

  lemma OpenTurnTail(env: Env, s: Store, k: nat)
    requires k < |Intended(env, s).writes| && Intended(env, s).writes[k].PutTurn?
    ensures s.published.None? && s.loop.pending.Some?
    ensures var slot, loop := s.loop.pending.value.slot, Intended(env, s).writes[k].loop;
      Intended(env, s).writes[k] == PutTurn(slot, loop) && Intended(env, s).writes[k..] == [PutTurn(slot, loop), PutCheckpoint(s.calls, loop)]
  {
    hide Turn, Prepare, Gate;
    var a := TurnCourse(env, s);
    assert k == |a.writes| + 1;
  }

  lemma TurnMakes(env: Env, s: Store, call: Call, reply: Reply)
    ensures forall i | 0 <= i < |Turn(env, s, call, reply).writes| :: MadeInTurn(Turn(env, s, call, reply).writes[i])
  {
    hide Act;
    NoWritesInRecovery(env, s, s.loop, call);
    ActsInTurn(env, s, s.loop.(read := s.loop.read + Lists.Elements(call.sources)), call, reply);
  }

  /** A finished turn is not taken again: the next worker only moves the checkpoint. */
  lemma TurnThenCheckpoint(env: Env, s: Store, k: nat)
    requires k < |Intended(env, s).writes| && Intended(env, s).writes[k].PutTurn?
    requires !Has(s, Intended(env, s).writes[k]) && !Conflicts(s, Intended(env, s).writes[k])
    requires forall j | 0 <= j < k :: Has(s, Intended(env, s).writes[j])
    ensures var w := Intended(env, s).writes[k]; RemainingWork(env, s) == [w] + RemainingWork(env, Do(s, w))
  {
    hide Turn, Prepare, Gate, Conflicts;
    OpenTurnTail(env, s, k);
    var w := Intended(env, s).writes[k];
    var call, t := s.loop.pending.value, Do(s, w);
    RemainingFrom(s, Intended(env, s).writes, k);
    assert Intended(env, s).writes[k..][1..] == [PutCheckpoint(s.calls, w.loop)];
    assert Intended(env, t) == Course([PutCheckpoint(s.calls, w.loop)], true);
  }

  /** Only a worker without a pending call publishes or prepares an input. */
  lemma IdleWrites(env: Env, s: Store, k: nat)
    requires k < |Intended(env, s).writes| && (Intended(env, s).writes[k].PutPublished? || Intended(env, s).writes[k].PutInput?)
    ensures s.published.None? && s.loop.pending.None?
  {
    hide Turn, Prepare, Gate;
    if IsOpen(s) {
      var a := TurnCourse(env, s);
    }
  }

  lemma PublicationIsLast(env: Env, s: Store, k: nat)
    requires k < |Intended(env, s).writes| && Intended(env, s).writes[k].PutPublished? && RemainingWork(env, s) != [] && RemainingWork(env, s)[0] == Intended(env, s).writes[k]
    ensures RemainingWork(env, s)[1..] == [] && RemainingWork(env, Do(s, RemainingWork(env, s)[0])) == []
  {
    hide Turn, Prepare, Gate, Conflicts, Has;
    IdleWrites(env, s, k);
    assert |Intended(env, s).writes| == 1;
    assert Intended(env, Do(s, RemainingWork(env, s)[0])).writes == [];
    CheckpointComesLast(s, Intended(env, s).writes);
  }

  lemma InputIsStable(env: Env, s: Store, k: nat)
    requires k < |Intended(env, s).writes| && Intended(env, s).writes[k].PutInput?
    ensures Intended(env, Do(s, Intended(env, s).writes[k])) == Intended(env, s)
  {
    hide Turn, Prepare, Gate;
    IdleWrites(env, s, k);
    PrepareIgnoresInputs(env, s, Do(s, Intended(env, s).writes[k]));
  }

  lemma PrepareIgnoresInputs(env: Env, s: Store, t: Store)
    requires t == s.(inputs := t.inputs)
    ensures Prepare(env, s) == Prepare(env, t)
  {
  }

  // ----- whole runs with crashes

  lemma {:induction false} CheckpointComesLast(s: Store, ws: seq<Write>)
    requires forall i | 0 <= i < |ws| - 1 :: !ws[i].PutCheckpoint?
    ensures forall i | 0 <= i < |Remaining(s, ws)| - 1 :: !Remaining(s, ws)[i].PutCheckpoint?
    ensures |Remaining(s, ws)| <= |ws|
    decreases |ws|
  {
    hide Has, Conflicts, Do;
    if ws != [] {
      var rest := ws[1..];
      assert forall i | 0 <= i < |rest| - 1 :: rest[i] == ws[i + 1];
      CheckpointComesLast(s, rest);
      CheckpointComesLast(Do(s, ws[0]), rest);
    }
  }

  lemma IntendedCheckpointLast(env: Env, s: Store)
    ensures forall i | 0 <= i < |Intended(env, s).writes| - 1 :: !Intended(env, s).writes[i].PutCheckpoint?
  {
    hide Turn, Prepare, Gate;
    if IsOpen(s) {
      var a := TurnCourse(env, s);
    }
  }

  /** A worker that makes `n` of its writes and then crashes. */
  function Crash(env: Env, s: Store, n: nat): Store {
    DoAll(s, if n < |RemainingWork(env, s)| then RemainingWork(env, s)[..n] else RemainingWork(env, s))
  }

  /** Worker after worker, each crashing after the given number of writes, or at its checkpoint. */
  function Run(env: Env, s: Store, crashes: seq<nat>): Store
    decreases |crashes|
  {
    if crashes == [] then s else Run(env, Crash(env, s, crashes[0]), crashes[1..])
  }

  lemma {:induction false} WorkIsSteps(env: Env, s: Store, n: nat)
    requires n <= |RemainingWork(env, s)|
    ensures DoAll(s, RemainingWork(env, s)[..n]) == Steps(env, s, n)
    ensures n < |RemainingWork(env, s)| ==> RemainingWork(env, Steps(env, s, n)) == RemainingWork(env, s)[n..]
    decreases n
  {
    hide Do, Intended, Remaining;
    var work := RemainingWork(env, s);
    if n > 0 {
      assert work[..n][1..] == work[1..][..n - 1];
      var t := Do(s, work[0]);
      if n > 1 || n < |work| {
        WorkCheckpointLast(env, s);
        CrashIsInvisible(env, s);
        WorkIsSteps(env, t, n - 1);
        assert work[1..][n - 1..] == work[n..];
      } else {
        assert work[..n][1..] == [];
        assert Steps(env, t, 0) == t;
      }
    } else {
      assert work[0..] == work && work[..0] == [];
    }
  }

  lemma WorkCheckpointLast(env: Env, s: Store)
    ensures forall i | 0 <= i < |RemainingWork(env, s)| - 1 :: !RemainingWork(env, s)[i].PutCheckpoint?
  {
    hide Has, Conflicts, Do, Intended;
    IntendedCheckpointLast(env, s);
    CheckpointComesLast(s, Intended(env, s).writes);
  }

  lemma {:induction false} StepsAdd(env: Env, s: Store, m: nat, n: nat)
    ensures Steps(env, Steps(env, s, m), n) == Steps(env, s, m + n)
    decreases m
  {
    hide Step;
    if m > 0 {
      StepsAdd(env, Step(env, s), m - 1, n);
    }
  }

  function Made(env: Env, s: Store, crashes: seq<nat>): nat
    decreases |crashes|
  {
    if crashes == [] then 0
    else
      (if crashes[0] < |RemainingWork(env, s)| then crashes[0] else |RemainingWork(env, s)|) + Made(env, Crash(env, s, crashes[0]), crashes[1..])
  }

  /** MAIN RESULT: wherever the workers crash, what is stored depends only on how many durable writes
      have been made. So every run, with any crashes, passes through the same stores. */
  lemma {:induction false} CrashesDoNotMatter(env: Env, s: Store, crashes: seq<nat>)
    ensures Run(env, s, crashes) == Steps(env, s, Made(env, s, crashes))
    decreases |crashes|
  {
    hide RemainingWork;
    if crashes != [] {
      var work := RemainingWork(env, s);
      var n := if crashes[0] < |work| then crashes[0] else |work|;
      assert work[..n] == if crashes[0] < |work| then work[..crashes[0]] else work;
      WorkIsSteps(env, s, n);
      var t := Crash(env, s, crashes[0]);
      CrashesDoNotMatter(env, t, crashes[1..]);
      StepsAdd(env, s, n, Made(env, t, crashes[1..]));
    }
  }
}
