/** Which reviews are used again, with any crashes: a task of a new candidate stays pending exactly when it
    judges the whole article or no review cleared its very scope and material
    (internal/investigator/article_loop_convergence.go, article_loop_input.go). */
module LoopReuse {
  import opened Wrappers
  import opened ReviewMaterial
  import opened ArticleLoop
  import opened LoopRecovery
  import opened LoopSafety
  import opened LoopSteps
  import opened LoopQuestions
  import opened LoopRuns
  import opened LoopFindings
  import opened LoopVerdicts
  import opened LoopDuties
  import opened LoopProgress

  // ----- cleared material

  /** One of the first `n` calls reviewed exactly this, itself and locally, and found nothing that blocks. */
  ghost predicate Clears(s: Store, key: Key, m: Material, n: nat) {
    && key in s.reviews && key.Accepted? && key.calls <= n
    && s.reviews[key].material == m && !s.reviews[key].scope.global && s.reviews[key].reusedFrom.None? && !IsBlocking(s.reviews[key].issues)
  }

  ghost predicate WasCleared(s: Store, m: Material, n: nat) {
    exists key :: Clears(s, key, m, n)
  }

  ghost predicate CacheAt(s: Store, l: Loop, n: nat) {
    forall m: Material :: (m in l.cache <==> WasCleared(s, m, n)) && (m in l.cache ==> Clears(s, l.cache[m], m, n))
  }

  /** The original reviews of the first `n` calls are as they were. */
  ghost predicate SameReviews(s: Store, t: Store, n: nat) {
    forall key: Key | key.Accepted? && key.calls <= n :: (key in t.reviews <==> key in s.reviews) && (key in s.reviews ==> t.reviews[key] == s.reviews[key])
  }

  lemma ClearedAlike(s: Store, t: Store, m: Material, n: nat)
    requires SameReviews(s, t, n)
    ensures WasCleared(t, m, n) <==> WasCleared(s, m, n)
    ensures forall key | Clears(s, key, m, n) :: Clears(t, key, m, n)
  {
    hide IsBlocking;
    forall key ensures Clears(t, key, m, n) <==> Clears(s, key, m, n) {
    }
  }

  lemma CacheStays(s: Store, t: Store, l: Loop, l': Loop, n: nat)
    requires CacheAt(s, l, n) && SameReviews(s, t, n) && l'.cache == l.cache
    ensures CacheAt(t, l', n)
  {
    hide Clears, WasCleared, SameReviews;
    forall m: Material ensures (m in l'.cache <==> WasCleared(t, m, n)) && (m in l'.cache ==> Clears(t, l'.cache[m], m, n)) {
      ClearedAlike(s, t, m, n);
    }
  }

  /** The reviews of call `n`. */
  ghost predicate AreOf(s: Store, n: nat, ws: seq<Write>) {
    forall key | key in s.reviews && key.Accepted? && key.calls == n :: PutReview(key, s.reviews[key]) in ws
  }

  /** What filing a review adds. */
  ghost predicate Files(s: Store, l: Loop, l': Loop, key: Key) {
    && key in s.reviews && key.Accepted?
    && l'.cache == if s.reviews[key].scope.global || IsBlocking(s.reviews[key].issues) then l.cache else l.cache[s.reviews[key].material := key]
  }

  /** The review is the only one of call `n`. */
  ghost predicate FilesOnly(s: Store, l: Loop, l': Loop, key: Key, n: nat) {
    Files(s, l, l', key) && key.calls == n && s.reviews[key].reusedFrom.None? && forall k | k in s.reviews && k.Accepted? && k.calls == n :: k == key
  }

  lemma ClearedMore(s: Store, m: Material, n: nat, key: Key)
    requires forall k | k in s.reviews && k.Accepted? && k.calls == n + 1 :: k == key
    ensures WasCleared(s, m, n + 1) <==> WasCleared(s, m, n) || Clears(s, key, m, n + 1)
    ensures forall k | Clears(s, k, m, n) :: Clears(s, k, m, n + 1)
  {
    hide IsBlocking;
    forall k ensures Clears(s, k, m, n + 1) <==> Clears(s, k, m, n) || (k == key && Clears(s, key, m, n + 1)) {
    }
    if WasCleared(s, m, n + 1) && !Clears(s, key, m, n + 1) {
      var k :| Clears(s, k, m, n + 1);
      assert Clears(s, k, m, n);
    }
    if WasCleared(s, m, n) {
      var k :| Clears(s, k, m, n);
      assert Clears(s, k, m, n + 1);
    }
  }

  lemma CacheMore(s: Store, l: Loop, l': Loop, n: nat, key: Key)
    requires CacheAt(s, l, n) && FilesOnly(s, l, l', key, n + 1)
    ensures CacheAt(s, l', n + 1)
  {
    hide WasCleared, IsBlocking;
    forall m: Material ensures (m in l'.cache <==> WasCleared(s, m, n + 1)) && (m in l'.cache ==> Clears(s, l'.cache[m], m, n + 1)) {
      ClearedMore(s, m, n, key);
    }
  }

  lemma CacheLater(s: Store, l: Loop, l': Loop, n: nat)
    requires CacheAt(s, l, n) && l'.cache == l.cache && forall k | k in s.reviews && k.Accepted? :: k.calls != n + 1
    ensures CacheAt(s, l', n + 1)
  {
    hide WasCleared, IsBlocking;
    forall m: Material ensures (m in l'.cache <==> WasCleared(s, m, n + 1)) && (m in l'.cache ==> Clears(s, l'.cache[m], m, n + 1)) {
      NothingClearedMore(s, m, n);
    }
  }

  lemma NothingClearedMore(s: Store, m: Material, n: nat)
    requires forall k | k in s.reviews && k.Accepted? :: k.calls != n + 1
    ensures WasCleared(s, m, n + 1) <==> WasCleared(s, m, n)
    ensures forall k | Clears(s, k, m, n) :: Clears(s, k, m, n + 1)
  {
    hide IsBlocking;
    forall k ensures Clears(s, k, m, n + 1) <==> Clears(s, k, m, n) {
    }
    if WasCleared(s, m, n + 1) {
      var k :| Clears(s, k, m, n + 1);
      assert Clears(s, k, m, n);
    }
    if WasCleared(s, m, n) {
      var k :| Clears(s, k, m, n);
      assert Clears(s, k, m, n + 1);
    }
  }

  // ----- the tasks of a new candidate

  ghost predicate IsNew(env: Env, cache: map<Material, Key>, h: ArticleLoop.Article, t: Scope) {
    t.global || Material(env.judged(h, t), t) !in cache
  }

  /** The cleared review, bound to the new candidate. */
  ghost predicate IsBound(env: Env, s: Store, cache: map<Material, Key>, h: ArticleLoop.Article, t: Scope) {
    var m := Material(env.judged(h, t), t);
    && m in cache && cache[m] in s.reviews && Reused(h, t.id) in s.reviews
    && s.reviews[Reused(h, t.id)] == s.reviews[cache[m]].(candidate := h, evidence := env.evidence(h), reusedFrom := Some(cache[m]))
  }

  /** The plan of a new candidate is divided into new tasks and reviews that are used again. */
  ghost predicate IsDivided(env: Env, s: Store, cache: map<Material, Key>, h: ArticleLoop.Article, plan: seq<Scope>, pending: seq<Scope>, keys: seq<Key>) {
    && (forall t :: t in pending <==> t in plan && IsNew(env, cache, h, t))
    && (forall t | t in plan && !IsNew(env, cache, h, t) :: Reused(h, t.id) in keys && IsBound(env, s, cache, h, t))
    && forall key | key in keys :: exists t :: t in plan && !IsNew(env, cache, h, t) && key == Reused(h, t.id)
  }

  lemma DividedByTask(env: Env, s: Store, cache: map<Material, Key>, h: ArticleLoop.Article, plan: seq<Scope>, pending: seq<Scope>, keys: seq<Key>, t: Scope)
    requires IsDivided(env, s, cache, h, plan, pending, keys) && IsNew(env, cache, h, t)
    ensures IsDivided(env, s, cache, h, plan + [t], pending + [t], keys)
  {
    hide IsNew, IsBound;
    forall key | key in keys ensures exists u :: u in plan + [t] && !IsNew(env, cache, h, u) && key == Reused(h, u.id) {
      var u :| u in plan && !IsNew(env, cache, h, u) && key == Reused(h, u.id);
      assert u in plan + [t];
    }
  }

  lemma DividedByKey(env: Env, s: Store, cache: map<Material, Key>, h: ArticleLoop.Article, plan: seq<Scope>, pending: seq<Scope>, keys: seq<Key>, t: Scope)
    requires IsDivided(env, s, cache, h, plan, pending, keys) && !IsNew(env, cache, h, t) && IsBound(env, s, cache, h, t)
    ensures IsDivided(env, s, cache, h, plan + [t], pending, KeysWith(keys, Reused(h, t.id)))
  {
    hide IsNew, IsBound;
    assert t in plan + [t];
    forall key | key in KeysWith(keys, Reused(h, t.id)) ensures exists u :: u in plan + [t] && !IsNew(env, cache, h, u) && key == Reused(h, u.id) {
      if key in keys {
        var u :| u in plan && !IsNew(env, cache, h, u) && key == Reused(h, u.id);
        assert u in plan + [t];
      }
    }
  }

  lemma NothingDivided(env: Env, s: Store, cache: map<Material, Key>, h: ArticleLoop.Article)
    ensures IsDivided(env, s, cache, h, [], [], [])
  {
  }

  /** The last task stays, or its review is bound. */
  lemma LastIsBound(env: Env, s: Store, l: Loop, h: ArticleLoop.Article, scopes: seq<Scope>, n: nat)
    requires 0 < n <= |scopes| && ReuseFirst(env, s, l, h, scopes, n).ok && AllMade(s, ReuseFirst(env, s, l, h, scopes, n).writes)
    ensures var r, front, t := ReuseFirst(env, s, l, h, scopes, n), ReuseFirst(env, s, l, h, scopes, n - 1), scopes[n - 1];
      if IsNew(env, l.cache, h, t) then r.pending == front.pending + [t] && r.keys == front.keys
      else r.pending == front.pending && r.keys == KeysWith(front.keys, Reused(h, t.id)) && IsBound(env, s, l.cache, h, t)
  {
    hide IsBlocking;
    var r, front, scope := ReuseFirst(env, s, l, h, scopes, n), ReuseFirst(env, s, l, h, scopes, n - 1), scopes[n - 1];
    if !IsNew(env, l.cache, h, scope) {
      LastIsMade(s, r.writes);
    }
  }

  lemma {:induction false} ReuseDivides(env: Env, s: Store, l: Loop, h: ArticleLoop.Article, scopes: seq<Scope>, n: nat)
    requires n <= |scopes|
    requires var r := ReuseFirst(env, s, l, h, scopes, n); r.ok && AllMade(s, r.writes)
    ensures var r := ReuseFirst(env, s, l, h, scopes, n); IsDivided(env, s, l.cache, h, scopes[..n], r.pending, r.keys)
  {
    hide IsDivided, IsNew, IsBound, AllMade, IsBlocking;
    if n == 0 {
      NothingDivided(env, s, l.cache, h);
    } else {
      ReuseFront(env, s, l, h, scopes, n);
      ReuseDivides(env, s, l, h, scopes, n - 1);
      LastIsBound(env, s, l, h, scopes, n);
      var front, t := ReuseFirst(env, s, l, h, scopes, n - 1), scopes[n - 1];
      assert scopes[..n] == scopes[..n - 1] + [t];
      if IsNew(env, l.cache, h, t) {
        DividedByTask(env, s, l.cache, h, scopes[..n - 1], front.pending, front.keys, t);
      } else {
        DividedByKey(env, s, l.cache, h, scopes[..n - 1], front.pending, front.keys, t);
      }
    }
  }

  // ----- what a turn uses again

  /** A new candidate starts with the new tasks of its plan. */
  ghost predicate Resumes(env: Env, s: Store, l: Loop, l': Loop) {
    && l'.cache == l.cache
    && (l'.candidate.Some? ==> IsDivided(env, s, l.cache, l'.candidate.value, l'.plan, l'.scopes, l'.keys))
  }

  lemma FreezeResumes(env: Env, s: Store, l: Loop, expected: nat)
    requires l.candidate.None? && var a := Freeze(env, s, l, expected); a.ok && AllMade(s, a.writes)
    ensures Resumes(env, s, l, Freeze(env, s, l, expected).loop)
  {
    hide ReuseFirst, IsDivided, AllIn;
    var a, h := Freeze(env, s, l, expected), s.current.article;
    var l1 := l.(candidate := Some(h), draftVersion := s.current.version, keys := [], issues := []);
    if a.loop.candidate.Some? {
      var scopes := env.plan(l1, h).value;
      var r := ReuseFirst(env, s, l1, h, scopes, |scopes|);
      assert a.writes == [PutCandidate(h)] + r.writes;
      forall i | 0 <= i < |r.writes| ensures Has(s, r.writes[i]) {
        assert a.writes[i + 1] == r.writes[i];
      }
      ReuseDivides(env, s, l1, h, scopes, |scopes|);
      assert scopes[..|scopes|] == scopes;
    }
  }

  lemma SaveResumes(env: Env, s: Store, l: Loop, slot: nat, save: Save)
    requires l.candidate.None? && var a := SaveAndFinish(env, s, l, slot, save); a.ok && AllMade(s, a.writes)
    ensures Resumes(env, s, l, SaveAndFinish(env, s, l, slot, save).loop)
  {
    hide Freeze, IsDivided;
    var w, a := SaveDraft(env, s, slot, save), SaveAndFinish(env, s, l, slot, save);
    if w.receipt.Some? {
      var receipt := w.receipt.value;
      assert w.writes == [PutDraft(slot, receipt)];
      assert a.writes[0] == PutDraft(slot, receipt) && Has(s, a.writes[0]);
      assert AfterDraft(s, slot, receipt) == s;
      var l1 := if receipt.noop then l else l.(challenged := None, candidate := None, scopes := [], keys := [], draftVersion := 0);
      if save.finish && !receipt.rejected {
        var f := Freeze(env, s, l1, s.current.version);
        assert a.writes == [PutDraft(slot, receipt)] + f.writes;
        forall i | 0 <= i < |f.writes| ensures Has(s, f.writes[i]) {
          assert a.writes[i + 1] == f.writes[i];
        }
        FreezeResumes(env, s, l1, s.current.version);
      }
    }
  }

  lemma ReviseResumes(env: Env, s: Store, l: Loop, slot: nat, patch: Patch)
    requires l.candidate.None? && var a := Revise(env, s, l, slot, patch); a.ok && AllMade(s, a.writes)
    ensures Resumes(env, s, l, Revise(env, s, l, slot, patch).loop)
  {
    hide SaveAndFinish, IsDivided;
    var planned := if slot in s.plans then Some(s.plans[slot])
                   else if s.current.version != patch.expected then None
                   else env.expand(s.current.article, patch);
    if planned.Some? {
      var a, b := Revise(env, s, l, slot, patch), SaveAndFinish(env, s, l, slot, planned.value);
      assert a.writes == [PutPlan(slot, planned.value)] + b.writes;
      forall i | 0 <= i < |b.writes| ensures Has(s, b.writes[i]) {
        assert a.writes[i + 1] == b.writes[i];
      }
      SaveResumes(env, s, l, slot, planned.value);
    }
  }

  lemma AuthorResumes(env: Env, s: Store, l: Loop, call: Call, reply: Reply)
    requires call.mode.Author? && l.candidate.None? && var a := Act(env, s, l, call, reply); a.ok && AllMade(s, a.writes)
    ensures Resumes(env, s, l, Act(env, s, l, call, reply).loop)
  {
    hide Freeze, SaveAndFinish, Revise, IsDivided, AllMade;
    var l1 := if l.issues != [] && CountsAsRepair(reply) then l.(repairActions := l.repairActions + 1) else l;
    match reply
    case SaveSections(save) => SaveResumes(env, s, l1, call.slot, save);
    case ReviseBlocks(patch) => ReviseResumes(env, s, l1, call.slot, patch);
    case Finish(expected) => FreezeResumes(env, s, l1, expected);
    case Challenge(expected, answered) =>
      var l2 := l1.(disputes := l1.disputes + {s.current.article}, challenged := Some(s.current.article));
      if Dispute(env, s, l1, expected, answered) == Freeze(env, s, l2, expected) {
        FreezeResumes(env, s, l2, expected);
      }
    case _ =>
  }

  lemma AcceptFilesCache(env: Env, s: Store, l: Loop, scope: Scope, report: Report)
    requires l.candidate.Some? && var a := Accept(env, s, l, scope, report); a.ok && AllMade(s, a.writes)
    ensures var key := Accepted(l.candidate.value, scope.id, s.calls);
      && Files(s, l, Accept(env, s, l, scope, report).loop, key) && s.reviews[key].reusedFrom.None?
      && forall w | w in Accept(env, s, l, scope, report).writes && w.PutReview? :: w.key == key
  {
    hide BlockingOnly, Asked, Omissions, Merged, Without, IsBlocking;
    var a := Accept(env, s, l, scope, report);
    assert Has(s, a.writes[0]);
  }

  /** A turn files its review, or leaves the cleared material as it is. */
  lemma TurnCaches(env: Env, s: Store, call: Call, reply: Reply)
    requires !call.mode.Review? ==> s.loop.candidate.None?
    requires var a := Turn(env, s, call, reply); a.ok && AllMade(s, a.writes) && AreOf(s, s.calls, a.writes)
    ensures call.mode.Author? && !IsCut(reply) ==> Resumes(env, s, s.loop, Turn(env, s, call, reply).loop)
    ensures var l' := Turn(env, s, call, reply).loop;
      || (exists key :: FilesOnly(s, s.loop, l', key, s.calls))
      || (l'.cache == s.loop.cache && forall k | k in s.reviews && k.Accepted? :: k.calls != s.calls)
  {
    hide Act, Recover, AllMade, FilesOnly, IsDivided, AreOf;
    var a, l := Turn(env, s, call, reply), Informed(s.loop, call);
    if IsCut(reply) {
      NoWritesInRecovery(env, s, s.loop, call);
      RecoveryCaches(env, s, s.loop, call);
      NothingFiled(env, s, call, reply);
    } else if call.mode.Author? {
      AuthorResumes(env, s, l, call, reply);
      NothingFiled(env, s, call, reply);
    } else if call.mode.Review? && IsAdmitted(env, s.loop, call.mode.scope, reply) {
      ReviewIsAccepted(env, s, s.loop, call, reply);
      AcceptFilesCache(env, s, l, call.mode.scope, reply.report);
      var key := Accepted(l.candidate.value, call.mode.scope.id, s.calls);
      OneIsFiled(s, a.writes, key);
      FilesAlike(s, l, s.loop, Accept(env, s, l, call.mode.scope, reply.report).loop, a.loop, key);
    } else {
      OthersCache(env, s, s.loop, call, reply);
      NothingFiled(env, s, call, reply);
    }
  }

  lemma FilesAlike(s: Store, l: Loop, l0: Loop, l': Loop, l'': Loop, key: Key)
    requires Files(s, l, l', key) && key.calls == s.calls && s.reviews[key].reusedFrom.None? && l0.cache == l.cache && l''.cache == l'.cache
    requires forall k | k in s.reviews && k.Accepted? && k.calls == s.calls :: k == key
    ensures FilesOnly(s, l0, l'', key, s.calls)
  {
  }

  lemma OneIsFiled(s: Store, ws: seq<Write>, key: Key)
    requires AreOf(s, s.calls, ws) && forall w | w in ws && w.PutReview? :: w.key == key
    ensures forall k | k in s.reviews && k.Accepted? && k.calls == s.calls :: k == key
  {
  }

  lemma RecoveryCaches(env: Env, s: Store, l: Loop, call: Call)
    ensures Recover(env, s, l, call).loop.cache == l.cache
  {
  }

  lemma OthersCache(env: Env, s: Store, l: Loop, call: Call, reply: Reply)
    requires !IsCut(reply) && !call.mode.Author? && !(call.mode.Review? && IsAdmitted(env, l, call.mode.scope, reply))
    ensures Act(env, s, Informed(l, call), call, reply).loop.cache == l.cache
  {
    hide Accept, IsAdmitted;
    if call.mode.Review? {
      AdmittedAlike(env, l, call, call.mode.scope, reply);
    }
  }

  /** Only an admitted review is filed under a key of its own. */
  lemma NothingFiled(env: Env, s: Store, call: Call, reply: Reply)
    requires AreOf(s, s.calls, Turn(env, s, call, reply).writes)
    requires IsCut(reply) || !call.mode.Review? || !IsAdmitted(env, s.loop, call.mode.scope, reply)
    ensures forall k | k in s.reviews && k.Accepted? :: k.calls != s.calls
  {
    hide Act, Recover, Accept, IsAdmitted, Asked, IsComplete;
    forall k | k in s.reviews && k.Accepted? ensures k.calls != s.calls {
      if k.calls == s.calls {
        NoWritesInRecovery(env, s, s.loop, call);
        var ws, l := Turn(env, s, call, reply).writes, Informed(s.loop, call);
        var i :| 0 <= i < |ws| && ws[i] == PutReview(k, s.reviews[k]);
        OnlyReviewsApprove(env, s, l, call, reply, i);
        AdmittedAlike(env, s.loop, call, call.mode.scope, reply);
      }
    }
  }

  // ----- between checkpoints

  ghost predicate Reusing(env: Env, s: Store) {
    && CacheAt(s, s.loop, SlotOf(s)) && (forall key | key in s.reviews && key.Accepted? :: key.calls <= s.calls)
    && (s.loop.pending.Some? ==>
          var call := s.loop.pending.value;
            if call.slot in s.turns then
              CacheAt(s, s.turns[call.slot], call.slot + 1)
              && (call.mode.Author? && call.slot in s.replies && !IsCut(s.replies[call.slot]) ==> Resumes(env, s, s.loop, s.turns[call.slot]))
            else AreOf(s, s.calls, TurnOf(env, s).writes))
  }

  lemma DividedStays(env: Env, s: Store, t: Store, l: Loop, l': Loop)
    requires Resumes(env, s, l, l') && Grows(s, t)
    ensures Resumes(env, t, l, l')
  {
    hide IsNew;
  }

  lemma WritingKeepsReviews(s: Store, w: Write)
    requires !Has(s, w) && !Conflicts(s, w)
    requires w.PutReview? && w.key.Accepted? ==> w.key.calls == s.calls
    requires PendingIsReserved(s) && (s.loop.pending.None? ==> !w.PutReview?)
    ensures SameReviews(s, Do(s, w), SlotOf(s))
    ensures forall key | key in Do(s, w).reviews && key.Accepted? :: key in s.reviews || (w.PutReview? && w.key == key)
  {
  }

  /** A write of an open turn. */
  lemma TurningKeepsReuse(env: Env, s: Store, w: Write, a: Action)
    requires Reusing(env, s) && IsOpen(s) && PendingIsReserved(s) && a == TurnOf(env, s) && !Has(s, w) && !Conflicts(s, w)
    requires w in a.writes || w.PutReply?
    requires var t := Do(s, w); t.loop == s.loop && t.turns == s.turns && t.calls == s.calls && TurnOf(env, t) == a
    ensures Reusing(env, Do(s, w))
  {
    hide TurnOf, CacheAt, Resumes, SameReviews, Has, Conflicts, Do;
    var t := Do(s, w);
    if w.PutReview? && w.key.Accepted? {
      FiledIsCalled(env, s, w);
    }
    WritingKeepsReviews(s, w);
    MadeOnce(s, w);
    FiledAreOf(s, w);
    CacheStays(s, t, s.loop, s.loop, SlotOf(s));
    forall key | key in t.reviews && key.Accepted? && key.calls == t.calls ensures PutReview(key, t.reviews[key]) in a.writes {
    }
  }

  lemma FiledAreOf(s: Store, w: Write)
    ensures w.PutReview? ==> w.key in Do(s, w).reviews && Do(s, w).reviews[w.key] == w.record
  {
  }

  lemma FiledIsCalled(env: Env, s: Store, w: Write)
    requires IsOpen(s) && w in TurnOf(env, s).writes && w.PutReview? && w.key.Accepted?
    ensures w.key.calls == s.calls
  {
    hide Turn, Accept;
    var call := s.loop.pending.value;
    var reply := ReplyOf(env, s, call.slot);
    TurnFiles(env, s, call, reply, w);
    AcceptedRecord(env, s, Informed(s.loop, call), call.mode.scope, reply.report, w);
  }

  lemma ReplyKeepsReuse(env: Env, s: Store, w: Write)
    requires Reusing(env, s) && IsOpen(s) && PendingIsReserved(s) && !Has(s, w) && !Conflicts(s, w)
    requires w == PutReply(s.loop.pending.value.slot, ReplyOf(env, s, s.loop.pending.value.slot))
    ensures Reusing(env, Do(s, w))
  {
    hide Turn, Reusing, Has, Conflicts;
    AlikeAfter(s, w);
    TurnAlike(env, s, Do(s, w), s.loop.pending.value, w.reply);
    TurningKeepsReuse(env, s, w, TurnOf(env, s));
  }

  lemma ActionKeepsReuse(env: Env, s: Store, k: nat, a: Action)
    requires Reusing(env, s) && IsOpen(s) && PendingIsReserved(s) && a == TurnOf(env, s) && k < |a.writes| && !Has(s, a.writes[k]) && !Conflicts(s, a.writes[k])
    requires forall j | 0 <= j < k :: Has(s, a.writes[j])
    ensures Reusing(env, Do(s, a.writes[k]))
  {
    hide Turn, Reusing, Has, Conflicts, Do;
    var call := s.loop.pending.value;
    var w := a.writes[k];
    TurnStable(env, s, call, ReplyOf(env, s, call.slot), k);
    KeepsLoop(s, w);
    assert w in a.writes;
    TurningKeepsReuse(env, s, w, a);
  }

  lemma RecordedKeepsReuse(env: Env, s: Store, a: Action)
    requires Reusing(env, s) && IsOpen(s) && PendingIsReserved(s) && a == TurnOf(env, s) && a.ok && AllMade(s, a.writes)
    requires !s.loop.pending.value.mode.Review? ==> s.loop.candidate.None?
    ensures Reusing(env, Do(s, PutTurn(s.loop.pending.value.slot, a.loop)))
  {
    hide Turn, CacheAt, Resumes, AllMade, AreOf, FilesOnly, SameReviews, Grows;
    var call := s.loop.pending.value;
    var t := Do(s, PutTurn(call.slot, a.loop));
    TurnCaches(env, s, call, ReplyOf(env, s, call.slot));
    if key :| FilesOnly(s, s.loop, a.loop, key, s.calls) {
      CacheMore(s, s.loop, a.loop, call.slot, key);
    } else {
      CacheLater(s, s.loop, a.loop, call.slot);
    }
    RecordingGrows(s, call.slot, a.loop);
    RecordingKeepsReviews(s, call.slot, a.loop);
    CacheStays(s, t, s.loop, s.loop, call.slot);
    CacheStays(s, t, a.loop, a.loop, call.slot + 1);
    if call.mode.Author? && !IsCut(ReplyOf(env, s, call.slot)) {
      DividedStays(env, s, t, s.loop, a.loop);
    }
  }

  lemma RecordingKeepsReviews(s: Store, slot: nat, l: Loop)
    ensures forall n :: SameReviews(s, Do(s, PutTurn(slot, l)), n)
  {
  }

  lemma OpenKeepsReuse(env: Env, s: Store, k: nat)
    requires IsSafe(env, s) && Reusing(env, s) && PendingIsReserved(s) && IsOpen(s) && k < |Intended(env, s).writes|
    requires var w := Intended(env, s).writes[k]; !Has(s, w) && !Conflicts(s, w) && !w.PutCheckpoint?
    requires forall j | 0 <= j < k :: Has(s, Intended(env, s).writes[j])
    ensures Reusing(env, Do(s, Intended(env, s).writes[k]))
  {
    hide IsSafe, Turn, Has, Conflicts, Intended, Reusing, Do;
    var a := TurnCourse(env, s);
    var call, ws, w := s.loop.pending.value, Intended(env, s).writes, Intended(env, s).writes[k];
    if k == 0 {
      ReplyKeepsReuse(env, s, w);
    } else {
      forall j | 0 <= j < k - 1 && j < |a.writes| ensures Has(s, a.writes[j]) {
        assert ws[j + 1] == a.writes[j];
      }
      if k <= |a.writes| {
        assert w == a.writes[k - 1];
        ActionKeepsReuse(env, s, k - 1, a);
      } else {
        assert k == |a.writes| + 1 && w == PutTurn(call.slot, a.loop);
        OthersHaveNoCandidate(env, s);
        RecordedKeepsReuse(env, s, a);
      }
    }
  }

  lemma OthersHaveNoCandidate(env: Env, s: Store)
    requires IsSafe(env, s) && s.loop.pending.Some?
    ensures !s.loop.pending.value.mode.Review? ==> s.loop.candidate.None?
  {
    hide LoopSafe, RecordsHonest, TurnIsSafe, ApprovalsEarned, ReviewsFirst, Gate, AllIn;
  }

  lemma ClosingKeepsReuse(env: Env, s: Store)
    requires Reusing(env, s) && IsLedger(env, s) && s.loop.pending.Some? && s.loop.pending.value.slot in s.turns
    ensures Reusing(env, Do(s, PutCheckpoint(s.calls, s.turns[s.loop.pending.value.slot])))
  {
    hide Resumes, Clears, WasCleared;
    var l := s.turns[s.loop.pending.value.slot];
    assert l.pending.None?;
    CacheStays(s, Do(s, PutCheckpoint(s.calls, l)), l, l, s.calls);
  }

  lemma IdleKeepsReuse(env: Env, s: Store, w: Write)
    requires Reusing(env, s) && s.loop.pending.None? && (w.PutPublished? || w.PutInput?)
    ensures Reusing(env, Do(s, w))
  {
    hide Resumes, CacheAt;
    CacheStays(s, Do(s, w), s.loop, s.loop, s.calls);
  }

  lemma ReservingKeepsReuse(env: Env, s: Store, l: Loop)
    requires Reusing(env, s) && s.loop.pending.None? && l.cache == s.loop.cache && l.pending.Some? && l.pending.value.slot == s.calls && s.calls !in s.turns
    ensures Reusing(env, Do(s, PutCheckpoint(s.calls + 1, l)))
  {
    hide Resumes, CacheAt, TurnOf;
    CacheStays(s, Do(s, PutCheckpoint(s.calls + 1, l)), s.loop, l, s.calls);
  }

  lemma StepKeepsReuse(env: Env, s: Store)
    requires IsFaithful(env) && IsSafe(env, s) && Reusing(env, s) && IsLedger(env, s)
    ensures Reusing(env, Step(env, s))
  {
    hide IsFaithful, IsSafe, Turn, Has, Conflicts, Gate, Prepare, Reusing, Intended, Do, IsLedger, IsWithin, DeliversScope;
    NextSlotIsUnused(env, s);
    if RemainingWork(env, s) != [] {
      var k := FirstMissing(s, Intended(env, s).writes);
      var w := Intended(env, s).writes[k];
      if IsOpen(s) {
        OpenIsNoCheckpoint(env, s, k);
        OpenKeepsReuse(env, s, k);
      } else {
        IdleCourse(env, s);
        if s.loop.pending.Some? {
          ClosingKeepsReuse(env, s);
        } else if w.PutPublished? || w.PutInput? {
          IdleKeepsReuse(env, s, w);
        } else {
          PrepareDoes(env, s);
          PreparesNextSlot(env, s);
          ReservingKeepsReuse(env, s, w.loop);
        }
      }
    }
  }

  // ----- whole runs

  ghost predicate Thrifty(env: Env, s: Store) {
    Dutiful(env, s) && Reusing(env, s)
  }

  lemma StepThrifty(env: Env, s: Store)
    requires IsFaithful(env) && Thrifty(env, s)
    ensures Thrifty(env, Step(env, s))
  {
    hide IsFaithful, IsSafe, QuestionsKept, DraftsCounted, Step, Findings, AllReported, IsLedger, Duty, MovesOn, Reusing;
    StepDutiful(env, s);
    StepKeepsReuse(env, s);
  }

  lemma {:induction false} StepsThrifty(env: Env, s: Store, n: nat)
    requires IsFaithful(env) && Thrifty(env, s)
    ensures Thrifty(env, Steps(env, s, n))
    decreases n
  {
    hide IsFaithful, Thrifty, Step;
    if n > 0 {
      StepThrifty(env, s);
      StepsThrifty(env, Step(env, s), n - 1);
    }
  }

  lemma InitialThrifty(env: Env, s: Store)
    requires IsFaithful(env) && IsInitial(env, s) && NothingFoundYet(s.loop) && NothingDoneYet(s.loop) && s.loop.cache == map[]
    ensures Thrifty(env, s)
  {
    hide IsFaithful, Dutiful;
    InitialDuty(env, s);
  }

  /** MAIN RESULT: in every store that is reached, a local review of some material is kept for later
      candidates exactly when one of the completed calls reviewed it and found nothing that blocks. */
  lemma EveryClearedReviewIsKept(env: Env, s: Store, crashes: seq<nat>)
    requires IsFaithful(env) && IsInitial(env, s) && NothingFoundYet(s.loop) && NothingDoneYet(s.loop) && s.loop.cache == map[]
    ensures var t := Run(env, s, crashes); Thrifty(env, t) && CacheAt(t, t.loop, SlotOf(t))
  {
    hide IsFaithful, IsInitial, Run, Steps, Dutiful, NothingFoundYet, NothingDoneYet, CacheAt;
    InitialThrifty(env, s);
    CrashesDoNotMatter(env, s, crashes);
    StepsThrifty(env, s, Made(env, s, crashes));
  }

  /** A task of a new candidate is reviewed exactly when it judges the whole article or was not cleared. */
  ghost predicate ReviewsOnlyNews(env: Env, s: Store, h: ArticleLoop.Article, plan: seq<Scope>, pending: seq<Scope>, keys: seq<Key>, n: nat) {
    && (forall t :: t in pending <==> t in plan && (t.global || !WasCleared(s, Material(env.judged(h, t), t), n)))
    && (forall t | t in plan && t !in pending ::
          var key := Reused(h, t.id);
            key in keys && key in s.reviews && s.reviews[key].candidate == h && s.reviews[key].evidence == env.evidence(h)
            && s.reviews[key].reusedFrom.Some? && var o := s.reviews[key].reusedFrom.value;
              Clears(s, o, Material(env.judged(h, t), t), n) && s.reviews[key].issues == s.reviews[o].issues && s.reviews[key].questions == s.reviews[o].questions)
    && forall key | key in keys :: exists t :: t in plan && t !in pending && key == Reused(h, t.id)
  }

  /** MAIN RESULT: when an author's turn makes its draft a candidate, only news is left to review. */
  lemma OnlyNewsIsReviewed(env: Env, s: Store)
    requires Thrifty(env, s) && s.loop.pending.Some? && s.loop.pending.value.mode.Author? && s.loop.pending.value.slot in s.turns
    requires s.turns[s.loop.pending.value.slot].candidate.Some?
    ensures var slot := s.loop.pending.value.slot; var l' := s.turns[slot];
      ReviewsOnlyNews(env, s, l'.candidate.value, l'.plan, l'.scopes, l'.keys, slot)
  {
    hide Told, DutyAt, Notes, Asks, IsWithin, DeliversScope, InputsDeliver, InputIsNext, Clears, WasCleared, IsBlocking, AllIn, Progresses;
    var slot := s.loop.pending.value.slot;
    assert !IsCut(s.replies[slot]) by { CutFreezesNothing(env, s, slot); }
    assert Resumes(env, s, s.loop, s.turns[slot]) && CacheAt(s, s.loop, slot);
    DividedIsNews(env, s, slot);
  }

  lemma CutFreezesNothing(env: Env, s: Store, slot: nat)
    requires Duty(env, s) && s.loop.pending.Some? && s.loop.pending.value.mode.Author? && s.loop.pending.value.slot == slot && slot in s.turns && s.turns[slot].candidate.Some?
    ensures slot in s.replies && !IsCut(s.replies[slot])
  {
    hide DutyAt, Notes, IsWithin, DeliversScope, InputsDeliver, InputIsNext, AllIn, Progresses;
  }

  lemma DividedIsNews(env: Env, s: Store, slot: nat)
    requires slot in s.turns && s.turns[slot].candidate.Some? && Resumes(env, s, s.loop, s.turns[slot]) && CacheAt(s, s.loop, slot)
    ensures var l' := s.turns[slot]; ReviewsOnlyNews(env, s, l'.candidate.value, l'.plan, l'.scopes, l'.keys, slot)
  {
    hide Clears, WasCleared;
    var l, l' := s.loop, s.turns[slot];
    var h := l'.candidate.value;
    forall t ensures IsNew(env, l.cache, h, t) <==> t.global || !WasCleared(s, Material(env.judged(h, t), t), slot) {
    }
    forall key | key in l'.keys ensures exists t :: t in l'.plan && t !in l'.scopes && key == Reused(h, t.id) {
      var t :| t in l'.plan && !IsNew(env, l.cache, h, t) && key == Reused(h, t.id);
      assert t !in l'.scopes;
    }
  }
}
