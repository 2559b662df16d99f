/** Which block patches are accepted, and what the ordinary write says that one stands for: conditions on
    the draft and the request (internal/investigator/article_loop_patch.go). */
module PatchRequests {
  import opened Lists
  import opened Wrappers
  import opened ArticleBlocks
  import opened AuthorLanguage
  import opened SectionRoundTrip
  import opened DraftWrite
  import opened DraftSafety
  import opened BlockPatch

  // ----- what a good patch is

  ghost predicate IsBlock(sections: seq<Section>, id: string) {
    exists k :: 0 <= k < |sections| && HasBlock(sections[k], id)
  }

  ghost predicate IsChapter(sections: seq<Section>, id: string) {
    exists k :: 0 <= k < |sections| && sections[k].id == id
  }

  /** The patch edits chapter `t`. */
  ghost predicate Names(p: PatchInput, t: Section) {
    || (exists r | r in p.replacements :: HasBlock(t, r.blockId)) || (exists id | id in p.removed :: HasBlock(t, id))
    || (exists u | u in p.limitations :: u.sectionId == t.id) || (exists u | u in p.observations :: u.sectionId == t.id)
  }

  ghost predicate ReplacesBlocks(sections: seq<Section>, rs: seq<Replacement>) {
    && (forall r | r in rs :: IsBlock(sections, r.blockId))
    && forall i, j | 0 <= i < j < |rs| :: rs[i].blockId != rs[j].blockId
  }

  ghost predicate RemovesBlocks(sections: seq<Section>, p: PatchInput) {
    Distinct(p.removed) && forall id | id in p.removed :: IsBlock(sections, id) && !Replaced(p, id)
  }

  ghost predicate LimitsChapters(sections: seq<Section>, us: seq<LimitationUpdate>) {
    && (forall u | u in us :: IsChapter(sections, u.sectionId))
    && forall i, j | 0 <= i < j < |us| :: us[i].sectionId != us[j].sectionId
  }

  ghost predicate ObservesChapters(sections: seq<Section>, us: seq<ObservationUpdate>) {
    && (forall u | u in us :: IsChapter(sections, u.sectionId) && u.observations != [] && NamesFramesOnce(u.observations))
    && forall i, j | 0 <= i < j < |us| :: us[i].sectionId != us[j].sectionId
  }

  predicate NamesFramesOnce(os: seq<Observation>) {
    forall j, k | 0 <= j < k < |os| :: os[j].frame != os[k].frame
  }

  ghost predicate KeepsSome(p: PatchInput, t: Section) {
    exists j :: 0 <= j < |t.blocks| && t.blocks[j].id !in p.removed
  }

  /** The blocks and chapters that it names exist, each is edited once, and no edited chapter becomes empty. */
  ghost predicate IsGood(sections: seq<Section>, p: PatchInput) {
    && !EmptyPatch(p) && ReplacesBlocks(sections, p.replacements) && RemovesBlocks(sections, p)
    && LimitsChapters(sections, p.limitations) && ObservesChapters(sections, p.observations)
    && forall t | t in sections && Names(p, t) :: KeepsSome(p, t)
  }

  // ----- what a patch says of a chapter

  ghost predicate IsFirstOf(known: seq<Observation>, k: nat) {
    k < |known| && forall j | 0 <= j < k :: known[j].frame != known[k].frame
  }

  predicate Observes(os: seq<Observation>, frame: string) {
    exists o | o in os :: o.frame == frame
  }

  /** Named frames have their new observation, in the place of the first old one or at the end; the others
      stay. */
  ghost predicate IsUpserted(known: seq<Observation>, more: seq<Observation>, out: seq<Observation>) {
    && |known| <= |out|
    && (forall k: nat | k < |known| :: if IsFirstOf(known, k) && Observes(more, known[k].frame) then out[k] in more && out[k].frame == known[k].frame else out[k] == known[k])
    && exists at: seq<nat> :: |at| == |out| - |known| && IsTail(known, more, out, at)
  }

  /** The new frames, in the order of the request. */
  ghost predicate IsTail(known: seq<Observation>, more: seq<Observation>, out: seq<Observation>, at: seq<nat>)
    requires |known| <= |out| && |at| == |out| - |known|
  {
    && (forall m | 0 <= m < |at| :: at[m] < |more| && out[|known| + m] == more[at[m]])
    && (forall l, m | 0 <= l < m < |at| :: at[l] < at[m])
    && forall i: nat | i < |more| :: i in at <==> !Observes(known, more[i].frame)
  }

  // ----- observations

  lemma ObservesFront(known: seq<Observation>, frame: string)
    requires known != []
    ensures Observes(known, frame) <==> known[0].frame == frame || Observes(known[1..], frame)
  {
    assert known == [known[0]] + known[1..];
  }

  lemma {:induction false} UpsertLength(known: seq<Observation>, o: Observation)
    ensures |Upsert(known, o)| == if Observes(known, o.frame) then |known| else |known| + 1
    ensures !Observes(known, o.frame) ==> Upsert(known, o) == known + [o]
  {
    hide Observes;
    if known == [] {
      NothingObserved(o.frame);
    } else {
      ObservesFront(known, o.frame);
      if known[0].frame != o.frame {
        UpsertLength(known[1..], o);
        assert known == [known[0]] + known[1..];
      }
    }
  }

  lemma NothingObserved(frame: string)
    ensures !Observes([], frame)
  {
  }

  lemma FirstOfRest(known: seq<Observation>, k: nat)
    requires 0 < k < |known|
    ensures IsFirstOf(known, k) <==> known[0].frame != known[k].frame && IsFirstOf(known[1..], k - 1)
  {
    var rest := known[1..];
    forall j: nat | 0 < j < |known| ensures known[j] == rest[j - 1] {
    }
    if known[0].frame != known[k].frame && IsFirstOf(rest, k - 1) {
      forall j | 0 <= j < k ensures known[j].frame != known[k].frame {
        if j > 0 {
          assert rest[j - 1].frame != rest[k - 1].frame;
        }
      }
    }
    if IsFirstOf(known, k) {
      forall j | 0 <= j < k - 1 ensures rest[j].frame != rest[k - 1].frame {
        assert known[j + 1].frame != known[k].frame;
      }
    }
  }

  lemma {:induction false} UpsertAt(known: seq<Observation>, o: Observation, k: nat)
    requires k < |known|
    ensures var r := Upsert(known, o); k < |r| && r[k] == if IsFirstOf(known, k) && known[k].frame == o.frame then o else known[k]
  {
    hide IsFirstOf;
    UpsertLength(known, o);
    if k == 0 {
      FirstIsFirst(known);
    } else {
      FirstOfRest(known, k);
      UpsertAt(known[1..], o, k - 1);
    }
  }

  lemma FirstIsFirst(known: seq<Observation>)
    requires known != []
    ensures IsFirstOf(known, 0)
  {
  }

  lemma UpsertIs(known: seq<Observation>, o: Observation)
    ensures var r := Upsert(known, o); |r| == if Observes(known, o.frame) then |known| else |known| + 1
    ensures var r := Upsert(known, o); forall k: nat | k < |known| :: k < |r| && r[k] == if IsFirstOf(known, k) && known[k].frame == o.frame then o else known[k]
    ensures !Observes(known, o.frame) ==> Upsert(known, o) == known + [o]
  {
    hide Upsert, Observes, IsFirstOf;
    UpsertLength(known, o);
    forall k: nat | k < |known| ensures k < |Upsert(known, o)| && Upsert(known, o)[k] == if IsFirstOf(known, k) && known[k].frame == o.frame then o else known[k] {
      UpsertAt(known, o, k);
    }
  }

  lemma {:induction false} UpsertAllIs(known: seq<Observation>, more: seq<Observation>, n: nat)
    requires n <= |more| && NamesFramesOnce(more)
    ensures IsUpserted(known, more[..n], UpsertAll(known, more, n))
  {
    hide IsUpserted, Upsert;
    if n == 0 {
      NothingUpserted(known, more[..0]);
    } else {
      UpsertAllIs(known, more, n - 1);
      assert more[..n] == more[..n - 1] + [more[n - 1]];
      assert !Observes(more[..n - 1], more[n - 1].frame);
      UpsertedMore(known, more[..n - 1], more[n - 1], UpsertAll(known, more, n - 1));
    }
  }

  lemma NothingUpserted(known: seq<Observation>, more: seq<Observation>)
    requires more == []
    ensures IsUpserted(known, more, known)
  {
    assert IsTail(known, more, known, []);
  }

  lemma UpsertedMore(known: seq<Observation>, more: seq<Observation>, o: Observation, out: seq<Observation>)
    requires IsUpserted(known, more, out) && !Observes(more, o.frame)
    ensures IsUpserted(known, more + [o], Upsert(out, o))
  {
    hide IsTail, IsFirstOf, Upsert;
    var out', more' := Upsert(out, o), more + [o];
    UpsertIs(out, o);
    forall k: nat | k < |known| ensures k < |out'| && if IsFirstOf(known, k) && Observes(more', known[k].frame) then out'[k] in more' && out'[k].frame == known[k].frame else out'[k] == known[k] {
      PlaceAfter(known, more, o, out, k);
    }
    var at: seq<nat> :| |at| == |out| - |known| && IsTail(known, more, out, at);
    TailAfter(known, more, o, out, at);
  }

  lemma PlaceAfter(known: seq<Observation>, more: seq<Observation>, o: Observation, out: seq<Observation>, k: nat)
    requires IsUpserted(known, more, out) && !Observes(more, o.frame) && k < |known|
    ensures var out', more' := Upsert(out, o), more + [o]; k < |out'| && if IsFirstOf(known, k) && Observes(more', known[k].frame) then out'[k] in more' && out'[k].frame == known[k].frame else out'[k] == known[k]
  {
    hide IsTail, Upsert;
    UpsertIs(out, o);
    var more' := more + [o];
    assert forall x :: x in more' <==> x in more || x == o;
    assert Observes(more', known[k].frame) <==> Observes(more, known[k].frame) || known[k].frame == o.frame;
    assert forall j: nat | j < |known| :: out[j].frame == known[j].frame;
    assert IsFirstOf(out, k) <==> IsFirstOf(known, k);
  }

  lemma TailAfter(known: seq<Observation>, more: seq<Observation>, o: Observation, out: seq<Observation>, at: seq<nat>)
    requires IsUpserted(known, more, out) && !Observes(more, o.frame) && |at| == |out| - |known| && IsTail(known, more, out, at)
    ensures var out' := Upsert(out, o); |known| <= |out'| && exists at': seq<nat> :: |at'| == |out'| - |known| && IsTail(known, more + [o], out', at')
  {
    hide Upsert, IsFirstOf;
    UpsertIs(out, o);
    var out', more' := Upsert(out, o), more + [o];
    TailHasNot(known, more, o, out, at);
    if Observes(known, o.frame) {
      KnownIsOut(known, more, o, out);
      assert |out'| == |out|;
      forall m | 0 <= m < |at| ensures out'[|known| + m] == more'[at[m]] {
        assert out[|known| + m].frame != o.frame;
      }
      assert IsTail(known, more', out', at);
    } else {
      assert !Observes(out, o.frame) by { KnownIsOut(known, more, o, out); }
      var at' := at + [|more|];
      assert |out'| - |known| == |at'|;
      forall i: nat | i < |more'| ensures i in at' <==> !Observes(known, more'[i].frame) {
        if i == |more| {
          assert at'[|at|] == i;
        } else {
          assert i in at <==> !Observes(known, more[i].frame);
          if i in at {
            var m :| 0 <= m < |at| && at[m] == i;
            assert at'[m] == i;
          }
        }
      }
      assert IsTail(known, more', out', at');
    }
  }

  lemma TailHasNot(known: seq<Observation>, more: seq<Observation>, o: Observation, out: seq<Observation>, at: seq<nat>)
    requires |known| <= |out| && |at| == |out| - |known| && IsTail(known, more, out, at) && !Observes(more, o.frame)
    ensures forall m | |known| <= m < |out| :: out[m].frame != o.frame
  {
    forall m | |known| <= m < |out| ensures out[m].frame != o.frame {
      assert out[|known| + (m - |known|)] == more[at[m - |known|]];
      assert more[at[m - |known|]] in more;
    }
  }

  lemma KnownIsOut(known: seq<Observation>, more: seq<Observation>, o: Observation, out: seq<Observation>)
    requires IsUpserted(known, more, out) && forall m | |known| <= m < |out| :: out[m].frame != o.frame
    ensures Observes(out, o.frame) <==> Observes(known, o.frame)
  {
    hide IsTail, IsFirstOf;
    assert forall k: nat | k < |known| :: out[k].frame == known[k].frame;
    if Observes(known, o.frame) {
      var k: nat :| k < |known| && known[k].frame == o.frame;
      assert out[k] in out;
    }
    if Observes(out, o.frame) {
      var k: nat :| k < |out| && out[k].frame == o.frame;
      assert known[k] in known;
    }
  }

  // ----- which edits are accepted, and what they touch

  lemma {:induction false} ReplaceExactly(found: map<string, nat>, e: Edits, rs: seq<Replacement>, n: nat)
    requires n <= |rs| && e.changes == map[]
    ensures Replace(found, e, rs, n).Some? <==> (forall k | 0 <= k < n :: rs[k].blockId in found) && forall i, j | 0 <= i < j < n :: rs[i].blockId != rs[j].blockId
    ensures Replace(found, e, rs, n).Some? ==>
      var r := Replace(found, e, rs, n).value;
        && r.removed == e.removed && r.sections == e.sections && (forall id :: id in r.changes <==> exists k :: 0 <= k < n && rs[k].blockId == id)
        && forall k :: k in r.touched <==> k in e.touched || exists m | 0 <= m < n :: found[rs[m].blockId] == k
  {
    if n > 0 {
      ReplaceExactly(found, e, rs, n - 1);
    }
  }

  lemma {:induction false} RemoveExactly(found: map<string, nat>, e: Edits, ids: seq<string>, n: nat)
    requires n <= |ids| && e.removed == {}
    ensures Remove(found, e, ids, n).Some? <==> (forall k | 0 <= k < n :: ids[k] in found && ids[k] !in e.changes) && forall i, j | 0 <= i < j < n :: ids[i] != ids[j]
    ensures Remove(found, e, ids, n).Some? ==>
      var r := Remove(found, e, ids, n).value;
        && r.changes == e.changes && r.sections == e.sections && (forall id :: id in r.removed <==> id in ids[..n])
        && forall k :: k in r.touched <==> k in e.touched || exists m | 0 <= m < n :: found[ids[m]] == k
  {
    if n > 0 {
      RemoveExactly(found, e, ids, n - 1);
      assert ids[..n] == ids[..n - 1] + [ids[n - 1]];
    }
  }

  ghost predicate OwnIds(sections: seq<AuthorSection>) {
    forall i, j | 0 <= i < j < |sections| :: sections[i].sectionId != sections[j].sectionId
  }

  lemma {:induction false} FirstSectionIs(sections: seq<AuthorSection>, id: string, i: nat)
    requires OwnIds(sections)
    ensures FirstSection(sections, id) == i <==> i < |sections| && sections[i].sectionId == id
    decreases sections, i
  {
    if sections != [] {
      var rest := sections[1..];
      assert OwnIds(rest);
      if i > 0 {
        FirstSectionIs(rest, id, i - 1);
      }
      assert i > 0 && i < |sections| ==> rest[i - 1] == sections[i];
    }
  }

  lemma {:induction false} NoFirstSection(sections: seq<AuthorSection>, id: string)
    ensures FirstSection(sections, id) < 0 <==> forall s | s in sections :: s.sectionId != id
  {
    if sections != [] {
      NoFirstSection(sections[1..], id);
      assert sections == [sections[0]] + sections[1..];
    }
  }

  ghost predicate SameIds(sections: seq<AuthorSection>, sections': seq<AuthorSection>) {
    |sections'| == |sections| && forall i | 0 <= i < |sections| :: sections'[i].sectionId == sections[i].sectionId
  }

  lemma SameIdsFirst(sections: seq<AuthorSection>, sections': seq<AuthorSection>, id: string)
    requires SameIds(sections, sections') && OwnIds(sections)
    ensures FirstSection(sections', id) == FirstSection(sections, id)
  {
    assert OwnIds(sections');
    var at := FirstSection(sections, id);
    if at >= 0 {
      FirstSectionIs(sections', id, at);
    } else {
      NoFirstSection(sections, id);
      forall s | s in sections' ensures s.sectionId != id {
        var i :| 0 <= i < |sections'| && sections'[i] == s;
        assert sections[i] in sections;
      }
      NoFirstSection(sections', id);
    }
  }

  /** The limitations that the first `n` updates leave a chapter. */
  ghost predicate IsLimited(us: seq<LimitationUpdate>, n: nat, s: AuthorSection, s': AuthorSection)
    requires n <= |us|
  {
    && (forall m | 0 <= m < n && us[m].sectionId == s.sectionId :: s'.limitations == us[m].limitations)
    && ((forall m | 0 <= m < n :: us[m].sectionId != s.sectionId) ==> s'.limitations == s.limitations)
  }

  /** Nothing but lists of limitations and observations changed. */
  ghost predicate OnlyLists(e: Edits, r: Edits) {
    && r.changes == e.changes && r.removed == e.removed && |r.sections| == |e.sections|
    && forall i | 0 <= i < |e.sections| :: r.sections[i] == e.sections[i].(limitations := r.sections[i].limitations, observations := r.sections[i].observations)
  }

  lemma OnlyListsFirst(e: Edits, r: Edits, id: string)
    requires OnlyLists(e, r) && OwnIds(e.sections)
    ensures FirstSection(r.sections, id) == FirstSection(e.sections, id)
  {
    SameIdsFirst(e.sections, r.sections, id);
  }

  ghost predicate LimitsOther(us: seq<LimitationUpdate>, n: nat, id: string)
    requires n <= |us|
  {
    forall k | 0 <= k < n :: us[k].sectionId != id
  }

  lemma LimitNext(e: Edits, us: seq<LimitationUpdate>, n: nat)
    requires 0 < n <= |us|
    ensures Limit(e, us, n).Some? <==> Limit(e, us, n - 1).Some? && FirstSection(Limit(e, us, n - 1).value.sections, us[n - 1].sectionId) >= 0 && LimitsOther(us, n - 1, us[n - 1].sectionId)
    ensures Limit(e, us, n).Some? ==>
      var front, at := Limit(e, us, n - 1).value, FirstSection(Limit(e, us, n - 1).value.sections, us[n - 1].sectionId);
        Limit(e, us, n).value == front.(touched := front.touched + {at}, sections := front.sections[at := front.sections[at].(limitations := us[n - 1].limitations)])
  {
  }

  lemma {:induction false} LimitAccepts(e: Edits, us: seq<LimitationUpdate>, n: nat)
    requires n <= |us| && OwnIds(e.sections)
    ensures Limit(e, us, n).Some? <==> (forall k | 0 <= k < n :: FirstSection(e.sections, us[k].sectionId) >= 0) && forall i | 0 <= i < n :: LimitsOther(us, i, us[i].sectionId)
    ensures Limit(e, us, n).Some? ==> OnlyLists(e, Limit(e, us, n).value)
  {
    hide Limit, FirstSection, LimitsOther, OnlyLists, OwnIds;
    if n == 0 {
      NothingLimited(e, us);
    } else {
      LimitAccepts(e, us, n - 1);
      LimitAcceptsMore(e, us, n);
    }
  }

  lemma NothingLimited(e: Edits, us: seq<LimitationUpdate>)
    ensures Limit(e, us, 0) == Some(e) && OnlyLists(e, e)
  {
  }

  lemma LimitAcceptsMore(e: Edits, us: seq<LimitationUpdate>, n: nat)
    requires 0 < n <= |us| && OwnIds(e.sections) && (Limit(e, us, n - 1).Some? ==> OnlyLists(e, Limit(e, us, n - 1).value))
    ensures Limit(e, us, n).Some? <==> Limit(e, us, n - 1).Some? && FirstSection(e.sections, us[n - 1].sectionId) >= 0 && LimitsOther(us, n - 1, us[n - 1].sectionId)
    ensures Limit(e, us, n).Some? ==> OnlyLists(e, Limit(e, us, n).value)
  {
    hide Limit, FirstSection, OwnIds, LimitsOther;
    LimitNext(e, us, n);
    if Limit(e, us, n - 1).Some? {
      OnlyListsFirst(e, Limit(e, us, n - 1).value, us[n - 1].sectionId);
    }
  }

  lemma {:induction false} LimitTouchesThem(e: Edits, us: seq<LimitationUpdate>, n: nat)
    requires n <= |us| && OwnIds(e.sections) && Limit(e, us, n).Some?
    ensures forall k: nat :: k in Limit(e, us, n).value.touched <==> k in e.touched || exists m | 0 <= m < n :: FirstSection(e.sections, us[m].sectionId) == k
  {
    hide FirstSection, OwnIds, OnlyLists, LimitsOther;
    if n > 0 {
      LimitNext(e, us, n);
      LimitTouchesThem(e, us, n - 1);
      LimitAccepts(e, us, n - 1);
      OnlyListsFirst(e, Limit(e, us, n - 1).value, us[n - 1].sectionId);
    }
  }

  lemma {:induction false} LimitedAre(e: Edits, us: seq<LimitationUpdate>, n: nat, i: nat)
    requires n <= |us| && OwnIds(e.sections) && Limit(e, us, n).Some? && i < |e.sections|
    ensures var r := Limit(e, us, n).value; i < |r.sections| && IsLimited(us, n, e.sections[i], r.sections[i]) && r.sections[i].observations == e.sections[i].observations
  {
    if n > 0 {
      LimitNext(e, us, n);
      LimitedAre(e, us, n - 1, i);
      LimitAccepts(e, us, n - 1);
      LimitedMore(e, us, n, i);
    }
  }

  lemma LimitedMore(e: Edits, us: seq<LimitationUpdate>, n: nat, i: nat)
    requires 0 < n <= |us| && OwnIds(e.sections) && Limit(e, us, n).Some? && Limit(e, us, n - 1).Some? && i < |e.sections|
    requires var front := Limit(e, us, n - 1).value; OnlyLists(e, front) && IsLimited(us, n - 1, e.sections[i], front.sections[i]) && front.sections[i].observations == e.sections[i].observations
    ensures var r := Limit(e, us, n).value; i < |r.sections| && IsLimited(us, n, e.sections[i], r.sections[i]) && r.sections[i].observations == e.sections[i].observations
  {
    hide FirstSection, OwnIds, Limit;
    LimitNext(e, us, n);
    OnlyListsFirst(e, Limit(e, us, n - 1).value, us[n - 1].sectionId);
    FirstSectionIs(e.sections, us[n - 1].sectionId, i);
  }

  /** The observations that the first `n` updates leave a chapter. */
  ghost predicate IsObserved(us: seq<ObservationUpdate>, n: nat, s: AuthorSection, s': AuthorSection)
    requires n <= |us|
  {
    && (forall m | 0 <= m < n && us[m].sectionId == s.sectionId :: IsUpserted(s.observations, us[m].observations, s'.observations))
    && ((forall m | 0 <= m < n :: us[m].sectionId != s.sectionId) ==> s'.observations == s.observations)
  }

  predicate IsObservationUpdate(u: ObservationUpdate) {
    u.observations != [] && NamesFramesOnce(u.observations)
  }

  ghost predicate ObservesOther(us: seq<ObservationUpdate>, n: nat, id: string)
    requires n <= |us|
  {
    forall k | 0 <= k < n :: us[k].sectionId != id
  }

  lemma ObserveNext(e: Edits, us: seq<ObservationUpdate>, n: nat)
    requires 0 < n <= |us|
    ensures ObserveFrames(e, us, n).Some? <==> ObserveFrames(e, us, n - 1).Some? && FirstSection(ObserveFrames(e, us, n - 1).value.sections, us[n - 1].sectionId) >= 0 && IsObservationUpdate(us[n - 1]) && ObservesOther(us, n - 1, us[n - 1].sectionId)
    ensures ObserveFrames(e, us, n).Some? ==>
      var front, u, at := ObserveFrames(e, us, n - 1).value, us[n - 1], FirstSection(ObserveFrames(e, us, n - 1).value.sections, us[n - 1].sectionId);
        ObserveFrames(e, us, n).value == front.(touched := front.touched + {at}, sections := front.sections[at := front.sections[at].(observations := UpsertAll(front.sections[at].observations, u.observations, |u.observations|))])
  {
    hide UpsertAll;
  }

  lemma {:induction false} ObserveAccepts(e: Edits, us: seq<ObservationUpdate>, n: nat)
    requires n <= |us| && OwnIds(e.sections)
    ensures ObserveFrames(e, us, n).Some? <==> (forall k | 0 <= k < n :: FirstSection(e.sections, us[k].sectionId) >= 0 && IsObservationUpdate(us[k])) && forall i | 0 <= i < n :: ObservesOther(us, i, us[i].sectionId)
    ensures ObserveFrames(e, us, n).Some? ==> OnlyLists(e, ObserveFrames(e, us, n).value)
  {
    hide ObserveFrames, FirstSection, ObservesOther, OnlyLists, OwnIds, IsObservationUpdate;
    if n == 0 {
      NothingObservedYet(e, us);
    } else {
      ObserveAccepts(e, us, n - 1);
      ObserveAcceptsMore(e, us, n);
    }
  }

  lemma NothingObservedYet(e: Edits, us: seq<ObservationUpdate>)
    ensures ObserveFrames(e, us, 0) == Some(e) && OnlyLists(e, e)
  {
  }

  lemma ObserveAcceptsMore(e: Edits, us: seq<ObservationUpdate>, n: nat)
    requires 0 < n <= |us| && OwnIds(e.sections) && (ObserveFrames(e, us, n - 1).Some? ==> OnlyLists(e, ObserveFrames(e, us, n - 1).value))
    ensures ObserveFrames(e, us, n).Some? <==> ObserveFrames(e, us, n - 1).Some? && FirstSection(e.sections, us[n - 1].sectionId) >= 0 && IsObservationUpdate(us[n - 1]) && ObservesOther(us, n - 1, us[n - 1].sectionId)
    ensures ObserveFrames(e, us, n).Some? ==> OnlyLists(e, ObserveFrames(e, us, n).value)
  {
    hide ObserveFrames, FirstSection, OwnIds, ObservesOther, IsObservationUpdate, UpsertAll;
    ObserveNext(e, us, n);
    if ObserveFrames(e, us, n - 1).Some? {
      OnlyListsFirst(e, ObserveFrames(e, us, n - 1).value, us[n - 1].sectionId);
    }
  }

  lemma {:induction false} ObserveTouchesThem(e: Edits, us: seq<ObservationUpdate>, n: nat)
    requires n <= |us| && OwnIds(e.sections) && ObserveFrames(e, us, n).Some?
    ensures forall k: nat :: k in ObserveFrames(e, us, n).value.touched <==> k in e.touched || exists m | 0 <= m < n :: FirstSection(e.sections, us[m].sectionId) == k
  {
    hide FirstSection, OwnIds, OnlyLists, ObservesOther, UpsertAll, IsObservationUpdate;
    if n > 0 {
      ObserveNext(e, us, n);
      ObserveTouchesThem(e, us, n - 1);
      ObserveAccepts(e, us, n - 1);
      OnlyListsFirst(e, ObserveFrames(e, us, n - 1).value, us[n - 1].sectionId);
    }
  }

  lemma {:induction false} ObservedAre(e: Edits, us: seq<ObservationUpdate>, n: nat, i: nat)
    requires n <= |us| && OwnIds(e.sections) && ObserveFrames(e, us, n).Some? && i < |e.sections|
    ensures var r := ObserveFrames(e, us, n).value; i < |r.sections| && IsObserved(us, n, e.sections[i], r.sections[i]) && r.sections[i].limitations == e.sections[i].limitations
  {
    hide IsUpserted, UpsertAll, IsObservationUpdate, OwnIds, FirstSection;
    if n > 0 {
      ObserveNext(e, us, n);
      ObservedAre(e, us, n - 1, i);
      ObserveAccepts(e, us, n - 1);
      ObservedMore(e, us, n, i);
    }
  }

  lemma ObservedMore(e: Edits, us: seq<ObservationUpdate>, n: nat, i: nat)
    requires 0 < n <= |us| && OwnIds(e.sections) && ObserveFrames(e, us, n).Some? && ObserveFrames(e, us, n - 1).Some? && i < |e.sections|
    requires var front := ObserveFrames(e, us, n - 1).value; OnlyLists(e, front) && IsObserved(us, n - 1, e.sections[i], front.sections[i]) && front.sections[i].limitations == e.sections[i].limitations
    ensures var r := ObserveFrames(e, us, n).value; i < |r.sections| && IsObserved(us, n, e.sections[i], r.sections[i]) && r.sections[i].limitations == e.sections[i].limitations
  {
    hide FirstSection, OwnIds, ObserveFrames, UpsertAll, IsUpserted, NamesFramesOnce;
    var u := us[n - 1];
    ObserveNext(e, us, n);
    OnlyListsFirst(e, ObserveFrames(e, us, n - 1).value, u.sectionId);
    FirstSectionIs(e.sections, u.sectionId, i);
    UpsertAllIs(e.sections[i].observations, u.observations, |u.observations|);
    assert u.observations[..|u.observations|] == u.observations;
  }

  // ----- the chapters that are sent

  lemma {:induction false} TouchedExactly(e: Edits, sections: seq<Section>, n: nat) returns (at: seq<nat>)
    requires n <= |sections| && Fits(e, sections)
    ensures Touched(e, sections, n).Some? <==> forall i | 0 <= i < n && i in e.touched :: Revised(e, sections, i).content != []
    ensures (forall m | 0 <= m < |at| :: at[m] < n) && (forall l, m | 0 <= l < m < |at| :: at[l] < at[m])
    ensures forall i: nat | i < n :: i in at <==> i in e.touched
    ensures Touched(e, sections, n).Some? ==>
      var ts := Touched(e, sections, n).value; |ts| == |at| && forall m | 0 <= m < |at| :: ts[m] == Revised(e, sections, at[m])
  {
    hide Revise;
    if n == 0 {
      at := [];
    } else {
      at := TouchedExactly(e, sections, n - 1);
      if n - 1 in e.touched {
        at := at + [n - 1];
      }
    }
  }

  // ----- the whole patch

  /** Chapters as they are stored: under different names, with numbered blocks. */
  ghost predicate IsStored(sections: seq<Section>) {
    Distinct(SectionIds(sections)) && forall t | t in sections :: Numbered(t)
  }

  ghost predicate ArePlaced(sections: seq<Section>, projected: seq<AuthorSection>) {
    |projected| == |sections| && forall i | 0 <= i < |sections| :: projected[i].sectionId == sections[i].id && |projected[i].content| == |sections[i].blocks|
  }

  lemma FoundIs(sections: seq<Section>, id: string)
    requires IsStored(sections)
    ensures id in Locate(sections, |sections|) <==> IsBlock(sections, id)
    ensures id in Locate(sections, |sections|) ==> forall k: nat :: Locate(sections, |sections|)[id] == k <==> k < |sections| && HasBlock(sections[k], id)
  {
    hide Locate, Numbered, HasBlock, Distinct, SectionIds;
    Located(sections, |sections|, id);
    if id in Locate(sections, |sections|) {
      var m := Locate(sections, |sections|)[id];
      forall k: nat | k < |sections| && HasBlock(sections[k], id) ensures k == m {
        BlockInOneSection(sections, k, m, id);
      }
    }
  }

  lemma PlacedAreOwn(sections: seq<Section>, projected: seq<AuthorSection>)
    requires IsStored(sections) && ArePlaced(sections, projected)
    ensures OwnIds(projected)
  {
    hide Numbered;
    forall i, j | 0 <= i < j < |projected| ensures projected[i].sectionId != projected[j].sectionId {
      assert SectionIds(sections)[i] != SectionIds(sections)[j];
    }
  }

  lemma ChapterIs(sections: seq<Section>, projected: seq<AuthorSection>, id: string)
    requires IsStored(sections) && ArePlaced(sections, projected)
    ensures FirstSection(projected, id) >= 0 <==> IsChapter(sections, id)
    ensures forall k: nat :: FirstSection(projected, id) == k <==> k < |sections| && sections[k].id == id
  {
    hide IsStored, FirstSection, OwnIds;
    PlacedAreOwn(sections, projected);
    NoFirstSection(projected, id);
    forall k: nat ensures FirstSection(projected, id) == k <==> k < |sections| && sections[k].id == id {
      FirstSectionIs(projected, id, k);
    }
    if IsChapter(sections, id) {
      var k :| 0 <= k < |sections| && sections[k].id == id;
      assert projected[k] in projected;
    }
  }

  /** What the edits of blocks amount to. */
  ghost predicate EditsBlocks(d: Draft, p: PatchInput, e: Edits, r: Edits) {
    && r.sections == e.sections && (forall id :: id in r.changes <==> Replaced(p, id)) && (forall id :: id in r.removed <==> id in p.removed)
    && forall k: nat | k < |d.article.sections| :: k in r.touched <==> (exists c | c in p.replacements :: HasBlock(d.article.sections[k], c.blockId)) || exists id | id in p.removed :: HasBlock(d.article.sections[k], id)
  }

  function BlockEdits(d: Draft, p: PatchInput, sections: seq<AuthorSection>): Option<Edits> {
    var found := Locate(d.article.sections, |d.article.sections|);
    match Replace(found, Edits(map[], {}, {}, sections), p.replacements, |p.replacements|)
    case None => None
    case Some(e) => Remove(found, e, p.removed, |p.removed|)
  }

  lemma BlockEditsExactly(d: Draft, p: PatchInput, sections: seq<AuthorSection>)
    requires IsStored(d.article.sections)
    ensures BlockEdits(d, p, sections).Some? <==> ReplacesBlocks(d.article.sections, p.replacements) && RemovesBlocks(d.article.sections, p)
    ensures BlockEdits(d, p, sections).Some? ==> EditsBlocks(d, p, Edits(map[], {}, {}, sections), BlockEdits(d, p, sections).value)
  {
    hide Locate, Replace, Remove, HasBlock, IsStored, IsBlock;
    var found, e := Locate(d.article.sections, |d.article.sections|), Edits(map[], {}, {}, sections);
    forall id ensures id in found <==> IsBlock(d.article.sections, id) {
      FoundIs(d.article.sections, id);
    }
    ReplaceExactly(found, e, p.replacements, |p.replacements|);
    var e1 := Replace(found, e, p.replacements, |p.replacements|);
    if e1.Some? {
      RemoveExactly(found, e1.value, p.removed, |p.removed|);
      var e2 := Remove(found, e1.value, p.removed, |p.removed|);
      if e2.Some? {
        assert p.removed[..|p.removed|] == p.removed;
        forall k: nat | k < |d.article.sections|
          ensures k in e2.value.touched <==> (exists c | c in p.replacements :: HasBlock(d.article.sections[k], c.blockId)) || exists id | id in p.removed :: HasBlock(d.article.sections[k], id)
        {
          TouchedByBlocks(d, p, e1.value, e2.value, k);
        }
      }
    }
  }

  lemma TouchedByBlocks(d: Draft, p: PatchInput, e1: Edits, e2: Edits, k: nat)
    requires IsStored(d.article.sections) && k < |d.article.sections|
    requires var found := Locate(d.article.sections, |d.article.sections|);
      && (forall r | r in p.replacements :: r.blockId in found) && (forall id | id in p.removed :: id in found)
      && (k in e1.touched <==> exists m | 0 <= m < |p.replacements| :: found[p.replacements[m].blockId] == k)
      && (k in e2.touched <==> k in e1.touched || exists m | 0 <= m < |p.removed| :: found[p.removed[m]] == k)
    ensures k in e2.touched <==> (exists c | c in p.replacements :: HasBlock(d.article.sections[k], c.blockId)) || exists id | id in p.removed :: HasBlock(d.article.sections[k], id)
  {
    hide Locate, HasBlock, IsStored, IsBlock;
    var found := Locate(d.article.sections, |d.article.sections|);
    forall c | c in p.replacements ensures found[c.blockId] == k <==> HasBlock(d.article.sections[k], c.blockId) {
      FoundIs(d.article.sections, c.blockId);
    }
    forall id | id in p.removed ensures found[id] == k <==> HasBlock(d.article.sections[k], id) {
      FoundIs(d.article.sections, id);
    }
  }

  lemma LimitsExactly(e: Edits, sections: seq<Section>, us: seq<LimitationUpdate>)
    requires IsStored(sections) && ArePlaced(sections, e.sections)
    ensures Limit(e, us, |us|).Some? <==> LimitsChapters(sections, us)
    ensures Limit(e, us, |us|).Some? ==> OnlyLists(e, Limit(e, us, |us|).value)
    ensures Limit(e, us, |us|).Some? ==> forall k: nat | k < |sections| :: k in Limit(e, us, |us|).value.touched <==> k in e.touched || exists u | u in us :: u.sectionId == sections[k].id
  {
    hide Limit, FirstSection, IsStored, OnlyLists, IsChapter, OwnIds;
    PlacedAreOwn(sections, e.sections);
    LimitAccepts(e, us, |us|);
    if Limit(e, us, |us|).Some? {
      LimitTouchesThem(e, us, |us|);
    }
    forall id ensures (FirstSection(e.sections, id) >= 0 <==> IsChapter(sections, id)) && forall k: nat :: FirstSection(e.sections, id) == k <==> k < |sections| && sections[k].id == id {
      ChapterIs(sections, e.sections, id);
    }
  }

  lemma ObservesExactly(e: Edits, sections: seq<Section>, us: seq<ObservationUpdate>)
    requires IsStored(sections) && ArePlaced(sections, e.sections)
    ensures ObserveFrames(e, us, |us|).Some? <==> ObservesChapters(sections, us)
    ensures ObserveFrames(e, us, |us|).Some? ==> OnlyLists(e, ObserveFrames(e, us, |us|).value)
    ensures ObserveFrames(e, us, |us|).Some? ==> forall k: nat | k < |sections| :: k in ObserveFrames(e, us, |us|).value.touched <==> k in e.touched || exists u | u in us :: u.sectionId == sections[k].id
  {
    hide ObserveFrames, FirstSection, IsStored, OnlyLists, IsChapter, OwnIds, NamesFramesOnce;
    PlacedAreOwn(sections, e.sections);
    ObserveAccepts(e, us, |us|);
    if ObserveFrames(e, us, |us|).Some? {
      ObserveTouchesThem(e, us, |us|);
    }
    forall id ensures (FirstSection(e.sections, id) >= 0 <==> IsChapter(sections, id)) && forall k: nat :: FirstSection(e.sections, id) == k <==> k < |sections| && sections[k].id == id {
      ChapterIs(sections, e.sections, id);
    }
  }

  lemma StillPlaced(sections: seq<Section>, e: Edits, r: Edits)
    requires ArePlaced(sections, e.sections) && OnlyLists(e, r)
    ensures ArePlaced(sections, r.sections)
  {
  }

  /** The lists of a chapter after the patch. */
  ghost predicate ListsAre(p: PatchInput, s: AuthorSection, s': AuthorSection) {
    && (forall u | u in p.limitations && u.sectionId == s.sectionId :: s'.limitations == u.limitations)
    && ((forall u | u in p.limitations :: u.sectionId != s.sectionId) ==> s'.limitations == s.limitations)
    && (forall u | u in p.observations && u.sectionId == s.sectionId :: IsUpserted(s.observations, u.observations, s'.observations))
    && ((forall u | u in p.observations :: u.sectionId != s.sectionId) ==> s'.observations == s.observations)
  }

  ghost predicate EditsAre(d: Draft, p: PatchInput, projected: seq<AuthorSection>, e: Edits) {
    && (forall id :: id in e.changes <==> Replaced(p, id)) && (forall id :: id in e.removed <==> id in p.removed)
    && ArePlaced(d.article.sections, e.sections) && |projected| == |e.sections|
    && (forall k: nat | k < |d.article.sections| :: k in e.touched <==> Names(p, d.article.sections[k]))
    && forall i | 0 <= i < |e.sections| :: ListsAre(p, projected[i], e.sections[i]) && e.sections[i] == projected[i].(limitations := e.sections[i].limitations, observations := e.sections[i].observations)
  }

  lemma EditsAccepted(d: Draft, p: PatchInput, projected: seq<AuthorSection>)
    requires IsStored(d.article.sections) && ArePlaced(d.article.sections, projected)
    ensures AllEdits(d, p, projected).Some? <==> ReplacesBlocks(d.article.sections, p.replacements) && RemovesBlocks(d.article.sections, p) && LimitsChapters(d.article.sections, p.limitations) && ObservesChapters(d.article.sections, p.observations)
    ensures AllEdits(d, p, projected).Some? ==> EditsAre(d, p, projected, AllEdits(d, p, projected).value)
  {
    hide Locate, Replace, Remove, Limit, ObserveFrames, IsStored, ReplacesBlocks, RemovesBlocks, LimitsChapters, ObservesChapters, HasBlock, Replaced, IsUpserted, OwnIds, ListsAre;
    BlockEditsExactly(d, p, projected);
    var e := BlockEdits(d, p, projected);
    if e.Some? {
      LimitsExactly(e.value, d.article.sections, p.limitations);
      var e1 := Limit(e.value, p.limitations, |p.limitations|);
      if e1.Some? {
        StillPlaced(d.article.sections, e.value, e1.value);
        ObservesExactly(e1.value, d.article.sections, p.observations);
        var e2 := ObserveFrames(e1.value, p.observations, |p.observations|);
        if e2.Some? {
          StillPlaced(d.article.sections, e1.value, e2.value);
          forall i: nat | i < |projected| ensures ListsAre(p, projected[i], e2.value.sections[i]) {
            ListsOfChapter(d, p, e.value, e1.value, e2.value, i);
          }
        }
      }
    }
  }

  lemma ListsOfChapter(d: Draft, p: PatchInput, e: Edits, e1: Edits, e2: Edits, i: nat)
    requires IsStored(d.article.sections) && ArePlaced(d.article.sections, e.sections) && i < |e.sections|
    requires Limit(e, p.limitations, |p.limitations|) == Some(e1) && OnlyLists(e, e1) && ObserveFrames(e1, p.observations, |p.observations|) == Some(e2)
    ensures i < |e2.sections| && ListsAre(p, e.sections[i], e2.sections[i])
  {
    hide Limit, ObserveFrames, IsStored, IsUpserted, OwnIds;
    PlacedAreOwn(d.article.sections, e.sections);
    StillPlaced(d.article.sections, e, e1);
    PlacedAreOwn(d.article.sections, e1.sections);
    LimitedAre(e, p.limitations, |p.limitations|, i);
    ObservedAre(e1, p.observations, |p.observations|, i);
  }

  /** The content of a chapter after the patch: kept blocks in order, replaced where the patch says so. */
  ghost predicate ContentIs(p: PatchInput, t: Section, content: seq<Content>, content': seq<Content>)
    requires |content| == |t.blocks|
  {
    && |content'| == Position(t.blocks, Elements(p.removed), |t.blocks|)
    && forall j | 0 <= j < |t.blocks| && t.blocks[j].id !in p.removed :: BlockIs(p, t, content, content', j)
  }

  ghost predicate BlockIs(p: PatchInput, t: Section, content: seq<Content>, content': seq<Content>, j: nat)
    requires |content| == |t.blocks| && j < |t.blocks|
  {
    var at := Position(t.blocks, Elements(p.removed), j);
    && at < |content'| && (!Replaced(p, t.blocks[j].id) ==> content'[at] == content[j])
    && forall r | r in p.replacements && r.blockId == t.blocks[j].id :: content'[at] == r.content
  }

  /** The entry that replaces chapter `t`. */
  ghost predicate IsEntryFor(p: PatchInput, t: Section, s: AuthorSection, s': AuthorSection)
    requires |s.content| == |t.blocks|
  {
    && s' == s.(content := s'.content, limitations := s'.limitations, observations := s'.observations)
    && ListsAre(p, s, s') && ContentIs(p, t, s.content, s'.content)
  }

  lemma {:induction false} PositionAlike(bs: seq<Block>, removed: set<string>, removed': set<string>, n: nat)
    requires n <= |bs| && forall id :: id in removed <==> id in removed'
    ensures Position(bs, removed, n) == Position(bs, removed', n)
  {
    if n > 0 {
      PositionAlike(bs, removed, removed', n - 1);
    }
  }

  lemma {:induction false} SomeIsKept(bs: seq<Block>, removed: set<string>, n: nat)
    requires n <= |bs|
    ensures Position(bs, removed, n) > 0 <==> exists j :: 0 <= j < n && bs[j].id !in removed
  {
    if n > 0 {
      SomeIsKept(bs, removed, n - 1);
    }
  }

  lemma RevisedIs(d: Draft, p: PatchInput, projected: seq<AuthorSection>, e: Edits, i: nat)
    requires EditsAre(d, p, projected, e) && Fits(e, d.article.sections) && i < |d.article.sections| && ArePlaced(d.article.sections, projected)
    requires AllEdits(d, p, projected) == Some(e)
    ensures var t := d.article.sections[i]; Revised(e, d.article.sections, i).content != [] <==> KeepsSome(p, t)
    ensures IsEntryFor(p, d.article.sections[i], projected[i], Revised(e, d.article.sections, i))
  {
    hide Revise, Names, ListsAre, Position, AllEdits, Replaced;
    var t, content := d.article.sections[i], e.sections[i].content;
    RevisedLength(e, content, t.blocks, |t.blocks|);
    PositionAlike(t.blocks, e.removed, Elements(p.removed), |t.blocks|);
    SomeIsKept(t.blocks, Elements(p.removed), |t.blocks|);
    forall j: nat | j < |t.blocks| && t.blocks[j].id !in p.removed ensures BlockIs(p, t, content, Revised(e, d.article.sections, i).content, j) {
      EditsAmount(d, p, projected, t.blocks[j].id);
      RevisedAt(e, content, t.blocks, |t.blocks|, j);
      PositionAlike(t.blocks, e.removed, Elements(p.removed), j);
      ReplacementOf(d, p, e, t.blocks[j].id);
    }
    ListsAlike(p, projected[i], e.sections[i], Revised(e, d.article.sections, i));
  }

  lemma ReplacementOf(d: Draft, p: PatchInput, e: Edits, id: string)
    requires Amounts(d, p, e, id)
    ensures (id in e.changes <==> Replaced(p, id)) && forall r | r in p.replacements && r.blockId == id :: id in e.changes && e.changes[id] == r.content
  {
    forall r | r in p.replacements && r.blockId == id ensures id in e.changes && e.changes[id] == r.content {
      var k :| 0 <= k < |p.replacements| && p.replacements[k] == r;
      assert Replaced(p, id);
    }
  }

  lemma ListsAlike(p: PatchInput, s: AuthorSection, s1: AuthorSection, s2: AuthorSection)
    requires ListsAre(p, s, s1) && s2.limitations == s1.limitations && s2.observations == s1.observations
    ensures ListsAre(p, s, s2)
  {
    hide IsUpserted;
  }

  /** The write names exactly the edited chapters, in article order, each with its new content. */
  ghost predicate IsWriteFor(d: Draft, p: PatchInput, projected: seq<AuthorSection>, save: SaveInput, at: seq<nat>)
    requires ArePlaced(d.article.sections, projected)
  {
    && save == SaveInput(p.finish, p.expected, None, save.sections, [], SectionIds(d.article.sections), false)
    && (forall m | 0 <= m < |at| :: at[m] < |d.article.sections|) && (forall l, m | 0 <= l < m < |at| :: at[l] < at[m])
    && (forall i: nat | i < |d.article.sections| :: i in at <==> Names(p, d.article.sections[i]))
    && |save.sections| == |at| && forall m | 0 <= m < |at| :: IsEntryFor(p, d.article.sections[at[m]], projected[at[m]], save.sections[m])
  }

  lemma ProjectedArePlaced(w: World, d: Draft)
    requires ProjectSections(w, d.article, d.notes, |d.article.sections|).Some?
    ensures ArePlaced(d.article.sections, ProjectSections(w, d.article, d.notes, |d.article.sections|).value)
  {
    hide ProjectSections, ProjectSection;
    ProjectedFit(w, d.article, d.notes, |d.article.sections|);
    var projected := ProjectSections(w, d.article, d.notes, |d.article.sections|).value;
    forall i | 0 <= i < |d.article.sections| ensures projected[i].sectionId == d.article.sections[i].id && |projected[i].content| == |d.article.sections[i].blocks| {
      assert ProjectSection(w, d.article, d.notes, d.article.sections[i]) == Some(projected[i]);
      ProjectionFits(w, d.article, d.notes, d.article.sections[i]);
    }
  }

  /** Sound drafts are. */
  lemma StoredIs(w: World, a: Article)
    requires Sound(w, a, true)
    ensures IsStored(a.sections)
  {
    hide Authored, Meaningful, Distinct, SectionIds, Numbered, Refs;
    forall t | t in a.sections ensures Numbered(t) {
      AuthoredIsNumbered(w, a, t);
    }
  }

  lemma ShownExactly(rules: Rules, d: Draft, p: PatchInput)
    requires IsStored(d.article.sections) && ProjectSections(rules.world, d.article, d.notes, |d.article.sections|).Some?
    ensures ArePlaced(d.article.sections, ProjectSections(rules.world, d.article, d.notes, |d.article.sections|).value)
    ensures Expand(rules, d, p).Some? <==> IsGood(d.article.sections, p)
    ensures Expand(rules, d, p).Some? ==> exists at :: IsWriteFor(d, p, ProjectSections(rules.world, d.article, d.notes, |d.article.sections|).value, Expand(rules, d, p).value, at)
  {
    hide IsStored, ProjectSections, AllEdits, Touched, Names, SectionIds, ReplacesBlocks, RemovesBlocks, LimitsChapters, ObservesChapters, IsEntryFor, KeepsSome, Revised, EditsAre, ListsAre, ArePlaced;
    ProjectedArePlaced(rules.world, d);
    var projected := ProjectSections(rules.world, d.article, d.notes, |d.article.sections|).value;
    EditsAccepted(d, p, projected);
    var e := AllEdits(d, p, projected);
    if e.Some? {
      EditsFit(rules.world, d, p);
      var at := TouchedExactly(e.value, d.article.sections, |d.article.sections|);
      forall i: nat | i < |d.article.sections|
        ensures i in e.value.touched <==> Names(p, d.article.sections[i])
        ensures Revised(e.value, d.article.sections, i).content != [] <==> KeepsSome(p, d.article.sections[i])
        ensures i < |projected| && |projected[i].content| == |d.article.sections[i].blocks| && IsEntryFor(p, d.article.sections[i], projected[i], Revised(e.value, d.article.sections, i))
      {
        TouchedIsNamed(d, p, projected, e.value, i);
        PlacedAt(d.article.sections, projected, i);
        RevisedIs(d, p, projected, e.value, i);
      }
      if Expand(rules, d, p).Some? {
        assert IsWriteFor(d, p, projected, Expand(rules, d, p).value, at);
      }
    }
  }

  lemma TouchedIsNamed(d: Draft, p: PatchInput, projected: seq<AuthorSection>, e: Edits, i: nat)
    requires EditsAre(d, p, projected, e) && i < |d.article.sections|
    ensures i in e.touched <==> Names(p, d.article.sections[i])
  {
    hide Names, ListsAre, ArePlaced;
  }

  lemma PlacedAt(sections: seq<Section>, projected: seq<AuthorSection>, i: nat)
    requires ArePlaced(sections, projected) && i < |sections|
    ensures i < |projected| && |projected[i].content| == |sections[i].blocks|
  {
  }

  /** MAIN RESULT: a patch of a stored draft is accepted exactly when the draft can be shown and the patch
      names existing blocks and chapters, each once, and empties no chapter; then it stands for this write. */
  lemma PatchExactly(rules: Rules, d: Draft, p: PatchInput)
    requires IsStored(d.article.sections)
    ensures Expand(rules, d, p).Some? <==> ProjectSections(rules.world, d.article, d.notes, |d.article.sections|).Some? && IsGood(d.article.sections, p)
    ensures Expand(rules, d, p).Some? ==> var shown := ProjectSections(rules.world, d.article, d.notes, |d.article.sections|).value;
      ArePlaced(d.article.sections, shown) && exists at :: IsWriteFor(d, p, shown, Expand(rules, d, p).value, at)
  {
    hide IsStored, ProjectSections, AllEdits, Touched, SectionIds, ArePlaced, IsGood, IsWriteFor;
    if ProjectSections(rules.world, d.article, d.notes, |d.article.sections|).Some? {
      ShownExactly(rules, d, p);
    }
  }
}
