/** The versioned draft of a run (internal/store/drafts.go; internal/investigator/article_loop_wire.go,
    article_loop_patch.go): a write names its operation and the version it was made for; a repeated
    operation gets its first receipt, a patch its first expansion. */
module DraftStore {
  import opened Lists
  import opened Wrappers
  import opened ArticleBlocks
  import opened AuthorLanguage
  import opened AuthorCompiler
  import opened AuthorRoundTrip
  import opened SectionRoundTrip
  import opened DraftWrite
  import opened DraftSafety
  import opened BlockPatch

  const REVISIONS := 48

  datatype Saved = Saved(input: SaveInput, version: nat, receipt: Receipt, noop: bool)
  datatype Plan = Plan(patch: PatchInput, save: SaveInput)
  datatype State = State(version: nat, draft: Draft, saved: map<string, Saved>, plans: map<string, Plan>)

  datatype Reply = Fenced | Stale | Problem(problem: Problem) | PatchRefused | Exhausted | Stored(version: nat, receipt: Receipt, noop: bool)

  // ----- one operation on the stored values

  /** Receipts are not content. */
  predicate Unchanged(st: State, d: Draft) {
    if st.version == 0 then d.article.title == "" && d.article.sections == []
    else d.article == st.draft.article && d.notes == st.draft.notes
  }

  function SaveStep(rules: Rules, st: State, key: string, input: SaveInput): (State, Reply) {
    if key in st.saved then
      var s := st.saved[key];
      (st, if s.input == input then Stored(s.version, s.receipt, s.noop) else Fenced)
    else if st.version != input.expected then (st, Stale)
    else
      match Edit(rules, st.draft, input)
      case Refused(problem) => (st, Problem(problem))
      case Prepared(d) =>
        var noop := Unchanged(st, d);
        if !noop && st.version >= REVISIONS then (st, Exhausted)
        else
          var version := if noop then st.version else st.version + 1;
          (st.(version := version, draft := if noop then st.draft else d, saved := st.saved[key := Saved(input, version, d.receipt, noop)]),
           Stored(version, d.receipt, noop))
  }

  function PatchStep(rules: Rules, st: State, key: string, p: PatchInput): (State, Reply) {
    if key in st.plans then
      if st.plans[key].patch == p then SaveStep(rules, st, key, st.plans[key].save) else (st, Fenced)
    else if st.version != p.expected then (st, Stale)
    else
      match Expand(rules, st.draft, p)
      case None => (st, PatchRefused)
      case Some(save) => SaveStep(rules, st.(plans := st.plans[key := Plan(p, save)]), key, save)
  }

  // ----- what every operation keeps

  ghost predicate ValidState(w: World, st: State) {
    && st.version <= REVISIONS
    && Sound(w, st.draft.article, false)
    && forall key | key in st.saved :: st.saved[key].version <= st.version
  }

  /** At most one version more, the draft changed only with it, no receipt and no plan forgotten. */
  ghost predicate Follows(w: World, st: State, st': State) {
    && ValidState(w, st')
    && st.version <= st'.version <= st.version + 1
    && (st'.version == st.version ==> st'.draft == st.draft)
    && (forall key | key in st.saved :: key in st'.saved && st'.saved[key] == st.saved[key])
    && (forall key | key in st.plans :: key in st'.plans && st'.plans[key] == st.plans[key])
  }

  lemma SaveKeepsState(rules: Rules, st: State, key: string, input: SaveInput)
    requires WellFormed(rules.world) && ValidState(rules.world, st)
    ensures Follows(rules.world, st, SaveStep(rules, st, key, input).0)
  {
    hide WellFormed, Sound, Edit;
    var r := Edit(rules, st.draft, input);
    if r.Prepared? {
      EditKeepsDraft(rules, st.draft, input, false);
    }
  }

  lemma PatchKeepsState(rules: Rules, st: State, key: string, p: PatchInput)
    requires WellFormed(rules.world) && ValidState(rules.world, st)
    ensures Follows(rules.world, st, PatchStep(rules, st, key, p).0)
  {
    hide WellFormed, Sound, Expand, SaveStep;
    if key in st.plans {
      SaveKeepsState(rules, st, key, st.plans[key].save);
    } else if Expand(rules, st.draft, p).Some? {
      var save := Expand(rules, st.draft, p).value;
      SaveKeepsState(rules, st.(plans := st.plans[key := Plan(p, save)]), key, save);
    }
  }

  // ----- repeated operations

  /** A later state that still has what an operation recorded. */
  ghost predicate Remembers(later: State, st: State, key: string) {
    && (key in st.saved ==> key in later.saved && later.saved[key] == st.saved[key])
    && (key in st.plans ==> key in later.plans && later.plans[key] == st.plans[key])
  }

  /** A write that got its receipt gets it again, from any later draft and with whatever was delivered
      since, and changes nothing. */
  lemma SaveIsReplayed(rules: Rules, st: State, key: string, input: SaveInput, rules': Rules, later: State)
    requires SaveStep(rules, st, key, input).1.Stored? && Remembers(later, SaveStep(rules, st, key, input).0, key)
    ensures SaveStep(rules', later, key, input) == (later, SaveStep(rules, st, key, input).1)
  {
    hide Edit;
  }

  lemma PatchIsReplayed(rules: Rules, st: State, key: string, p: PatchInput, rules': Rules, later: State)
    requires PatchStep(rules, st, key, p).1.Stored? && Remembers(later, PatchStep(rules, st, key, p).0, key)
    ensures PatchStep(rules', later, key, p) == (later, PatchStep(rules, st, key, p).1)
  {
    hide Edit, Expand;
  }

  /** A worker that stops between its plan and its write leaves what another worker finishes in the
      same way. */
  lemma InterruptedPatch(rules: Rules, st: State, key: string, p: PatchInput)
    requires key !in st.plans && st.version == p.expected && Expand(rules, st.draft, p).Some?
    ensures var planned := st.(plans := st.plans[key := Plan(p, Expand(rules, st.draft, p).value)]); PatchStep(rules, planned, key, p) == PatchStep(rules, st, key, p)
  {
    hide Edit, Expand;
  }

  // ----- the patch as it is expanded

  lemma {:induction false} ReplaceStops(found: map<string, nat>, e: Edits, rs: seq<Replacement>, n: nat, end: nat)
    requires n <= end <= |rs| && Replace(found, e, rs, n).None?
    ensures Replace(found, e, rs, end).None?
  {
    if n < end {
      ReplaceStops(found, e, rs, n, end - 1);
    }
  }

  lemma {:induction false} RemoveStops(found: map<string, nat>, e: Edits, ids: seq<string>, n: nat, end: nat)
    requires n <= end <= |ids| && Remove(found, e, ids, n).None?
    ensures Remove(found, e, ids, end).None?
  {
    if n < end {
      RemoveStops(found, e, ids, n, end - 1);
    }
  }

  lemma {:induction false} LimitStops(e: Edits, us: seq<LimitationUpdate>, n: nat, end: nat)
    requires n <= end <= |us| && Limit(e, us, n).None?
    ensures Limit(e, us, end).None?
  {
    if n < end {
      LimitStops(e, us, n, end - 1);
    }
  }

  lemma {:induction false} ObserveStops(e: Edits, us: seq<ObservationUpdate>, n: nat, end: nat)
    requires n <= end <= |us| && ObserveFrames(e, us, n).None?
    ensures ObserveFrames(e, us, end).None?
  {
    hide UpsertAll;
    if n < end {
      ObserveStops(e, us, n, end - 1);
    }
  }

  lemma {:induction false} TouchedStops(e: Edits, sections: seq<Section>, n: nat, end: nat)
    requires n <= end <= |sections| && Fits(e, sections) && Touched(e, sections, n).None?
    ensures Touched(e, sections, end).None?
  {
    hide Revise;
    if n < end {
      TouchedStops(e, sections, n, end - 1);
    }
  }

  method LocateAll(sections: seq<Section>) returns (found: map<string, nat>)
    ensures found == Locate(sections, |sections|)
  {
    found := map[];
    for i := 0 to |sections|
      invariant found == Locate(sections, i)
    {
      ghost var before := found;
      for j := 0 to |sections[i].blocks|
        invariant found == LocateBlocks(before, i, sections[i].blocks, j)
      {
        found := found[sections[i].blocks[j].id := i];
      }
    }
  }

  method EditBlocks(found: map<string, nat>, e: Edits, p: PatchInput) returns (r: Option<Edits>)
    ensures r == match Replace(found, e, p.replacements, |p.replacements|) case None => None case Some(e) => Remove(found, e, p.removed, |p.removed|)
  {
    var out := e;
    var n := 0;
    while n < |p.replacements|
      invariant 0 <= n <= |p.replacements| && Replace(found, e, p.replacements, n) == Some(out)
    {
      var change := p.replacements[n];
      if change.blockId !in found || change.blockId in out.changes {
        ReplaceStops(found, e, p.replacements, n + 1, |p.replacements|);
        return None;
      }
      out := out.(changes := out.changes[change.blockId := change.content], touched := out.touched + {found[change.blockId]});
      n := n + 1;
    }
    ghost var replaced := out;
    n := 0;
    while n < |p.removed|
      invariant 0 <= n <= |p.removed| && Remove(found, replaced, p.removed, n) == Some(out)
    {
      var id := p.removed[n];
      if id !in found || id in out.changes || id in out.removed {
        RemoveStops(found, replaced, p.removed, n + 1, |p.removed|);
        return None;
      }
      out := out.(removed := out.removed + {id}, touched := out.touched + {found[id]});
      n := n + 1;
    }
    r := Some(out);
  }

  method EditLimitations(e: Edits, us: seq<LimitationUpdate>) returns (r: Option<Edits>)
    ensures r == Limit(e, us, |us|)
  {
    hide FirstSection;
    var out := e;
    var n := 0;
    while n < |us|
      invariant 0 <= n <= |us| && Limit(e, us, n) == Some(out)
    {
      var at := FirstSection(out.sections, us[n].sectionId);
      if at < 0 || exists k | 0 <= k < n :: us[k].sectionId == us[n].sectionId {
        LimitStops(e, us, n + 1, |us|);
        return None;
      }
      out := out.(touched := out.touched + {at}, sections := out.sections[at := out.sections[at].(limitations := us[n].limitations)]);
      n := n + 1;
    }
    r := Some(out);
  }

  method EditObservations(e: Edits, us: seq<ObservationUpdate>) returns (r: Option<Edits>)
    ensures r == ObserveFrames(e, us, |us|)
  {
    hide FirstSection, Upsert;
    var out := e;
    var n := 0;
    while n < |us|
      invariant 0 <= n <= |us| && ObserveFrames(e, us, n) == Some(out)
    {
      var u := us[n];
      var at := FirstSection(out.sections, u.sectionId);
      if at < 0 || u.observations == [] || (exists k | 0 <= k < n :: us[k].sectionId == u.sectionId)
         || (exists j, k | 0 <= j < k < |u.observations| :: u.observations[j].frame == u.observations[k].frame) {
        ObserveStops(e, us, n + 1, |us|);
        return None;
      }
      var known := out.sections[at].observations;
      for m := 0 to |u.observations|
        invariant known == UpsertAll(out.sections[at].observations, u.observations, m)
      {
        known := Upsert(known, u.observations[m]);
      }
      out := out.(touched := out.touched + {at}, sections := out.sections[at := out.sections[at].(observations := known)]);
      n := n + 1;
    }
    r := Some(out);
  }

  method Entries(e: Edits, sections: seq<Section>) returns (r: Option<seq<AuthorSection>>)
    requires Fits(e, sections)
    ensures r == Touched(e, sections, |sections|)
  {
    hide Revise;
    var out: seq<AuthorSection> := [];
    var n := 0;
    while n < |sections|
      invariant 0 <= n <= |sections| && Touched(e, sections, n) == Some(out)
    {
      if n in e.touched {
        var content := RevisedContent(e, e.sections[n].content, sections[n].blocks);
        if content == [] {
          TouchedStops(e, sections, n + 1, |sections|);
          return None;
        }
        out := out + [e.sections[n].(content := content)];
      }
      n := n + 1;
    }
    r := Some(out);
  }

  method RevisedContent(e: Edits, content: seq<Content>, bs: seq<Block>) returns (r: seq<Content>)
    requires |content| == |bs|
    ensures r == Revise(e, content, bs, |bs|)
  {
    r := [];
    for j := 0 to |bs|
      invariant r == Revise(e, content, bs, j)
    {
      var id := bs[j].id;
      if id !in e.removed {
        r := r + [if id in e.changes then e.changes[id] else content[j]];
      }
    }
  }

  method ExpandPatch(rules: Rules, d: Draft, p: PatchInput) returns (r: Option<SaveInput>)
    ensures r == Expand(rules, d, p)
  {
    hide ProjectSections, Locate, Replace, Remove, Limit, ObserveFrames, Touched, Fits;
    if EmptyPatch(p) {
      return None;
    }
    var projected := AuthorDraft(rules.world, d.article, d.notes);
    if projected.None? {
      return None;
    }
    var found := LocateAll(d.article.sections);
    var e := EditBlocks(found, Edits(map[], {}, {}, projected.value), p);
    if e.None? {
      return None;
    }
    e := EditLimitations(e.value, p.limitations);
    if e.None? {
      return None;
    }
    e := EditObservations(e.value, p.observations);
    if e.None? {
      return None;
    }
    EditsFit(rules.world, d, p);
    var touched := Entries(e.value, d.article.sections);
    if touched.None? {
      return None;
    }
    r := Some(SaveInput(p.finish, p.expected, None, touched.value, [], SectionIds(d.article.sections), false));
  }

  // ----- the store

  class Drafts {
    var version: nat
    var draft: Draft
    var saved: map<string, Saved>
    var plans: map<string, Plan>

    constructor ()
      ensures forall w :: ValidState(w, Value())
      ensures Value() == State(0, Draft(Article("", [], map[], [], Standard), map[], NO_RECEIPT), map[], map[])
    {
      version, draft, saved, plans := 0, Draft(Article("", [], map[], [], Standard), map[], NO_RECEIPT), map[], map[];
      new;
      forall w ensures ValidState(w, Value()) {
        EmptyDraftIsSound(w, "", false);
      }
    }

    function Value(): State
      reads this
    {
      State(version, draft, saved, plans)
    }

    ghost predicate Valid(w: World)
      reads this
    {
      ValidState(w, Value())
    }

    /** `saveLoopSections` with `SaveArticleDraft`. */
    method Save(rules: Rules, key: string, input: SaveInput) returns (r: Reply)
      requires WellFormed(rules.world) && Valid(rules.world)
      modifies this
      ensures Valid(rules.world) && (Value(), r) == SaveStep(rules, old(Value()), key, input)
    {
      hide WellFormed, Sound, Edit;
      SaveKeepsState(rules, Value(), key, input);
      if key in saved {
        var s := saved[key];
        return if s.input == input then Stored(s.version, s.receipt, s.noop) else Fenced;
      }
      if version != input.expected {
        return Stale;
      }
      var edited := PrepareEdit(rules, draft, input);
      if edited.Refused? {
        return Problem(edited.problem);
      }
      var d := edited.draft;
      var noop := Unchanged(Value(), d);
      if !noop {
        if version >= REVISIONS {
          return Exhausted;
        }
        version := version + 1;
        draft := d;
      }
      saved := saved[key := Saved(input, version, d.receipt, noop)];
      r := Stored(version, d.receipt, noop);
    }

    /** `patchLoopBlocks`. */
    method Patch(rules: Rules, key: string, p: PatchInput) returns (r: Reply)
      requires WellFormed(rules.world) && Valid(rules.world)
      modifies this
      ensures Valid(rules.world) && (Value(), r) == PatchStep(rules, old(Value()), key, p)
    {
      hide WellFormed, Sound, Expand, SaveStep;
      if key in plans {
        if plans[key].patch != p {
          return Fenced;
        }
        r := Save(rules, key, plans[key].save);
        return;
      }
      if version != p.expected {
        return Stale;
      }
      var save := ExpandPatch(rules, draft, p);
      if save.None? {
        return PatchRefused;
      }
      plans := plans[key := Plan(p, save.value)];
      r := Save(rules, key, save.value);
    }
  }
}
