/** What a saved draft is, part by part, in terms of the draft before and the entries of the request
    (internal/investigator/article_loop_wire.go, `saveLoopSections`). */
module DraftRequests {
  import opened Lists
  import opened Text
  import opened Wrappers
  import opened ArticleBlocks
  import opened AuthorLanguage
  import opened DraftWrite
  import opened DraftSafety

  // ----- which entries are taken

  /** The chapter that an entry is for. */
  function TargetOf(rules: Rules, s: AuthorSection): string {
    if s.sectionId == "" then NewId(rules, s.key) else s.sectionId
  }

  function MadeFrom(rules: Rules, s: AuthorSection): Result<Compiled> {
    CompileSection(rules.world, Catalog(rules.world), s, TargetOf(rules, s))
  }

  /** The entry reads well, names a chapter, and compiles to acceptable blocks. */
  predicate IsFit(rules: Rules, s: AuthorSection) {
    && s.rejected == "" && (s.sectionId != "" || s.key != "") && MadeFrom(rules, s).Ok?
    && rules.acceptable(MadeFrom(rules, s).value.section, MadeFrom(rules, s).value.citations)
  }

  /** Entry `i` is fit, and its chapter is there already exactly when it is named by its identity. */
  ghost predicate IsTaken(rules: Rules, a: Article, ss: seq<AuthorSection>, i: nat)
    decreases i, 1
  {
    i < |ss| && IsFit(rules, ss[i]) && (ss[i].sectionId != "" <==> IsThere(rules, a, ss, i, TargetOf(rules, ss[i])))
  }

  /** The chapter exists before entry `i`: from the start, or by an entry taken before. */
  ghost predicate IsThere(rules: Rules, a: Article, ss: seq<AuthorSection>, i: nat, id: string)
    decreases i, 0
  {
    HasId(a.sections, id) || exists j: nat :: j < i && IsTaken(rules, a, ss, j) && TargetOf(rules, ss[j]) == id
  }

  /** Entry `i` is the last one taken for a chapter. */
  ghost predicate IsLastFor(rules: Rules, a: Article, ss: seq<AuthorSection>, n: nat, id: string, i: nat) {
    && i < n && IsTaken(rules, a, ss, i) && TargetOf(rules, ss[i]) == id
    && forall j: nat | i < j < n && IsTaken(rules, a, ss, j) :: TargetOf(rules, ss[j]) != id
  }

  ghost predicate IsReplaced(rules: Rules, a: Article, ss: seq<AuthorSection>, n: nat, id: string) {
    exists j: nat :: j < n && IsTaken(rules, a, ss, j) && TargetOf(rules, ss[j]) == id
  }

  // ----- the parts of the draft after the first `n` entries

  /** Chapters that are there, each with the content of the last entry for it or its old content. */
  ghost predicate SectionsAre(rules: Rules, a: Article, ss: seq<AuthorSection>, n: nat, sections: seq<Section>) {
    && (forall id :: HasId(sections, id) <==> IsThere(rules, a, ss, n, id))
    && (forall t, i: nat | t in sections && i < |ss| && IsLastFor(rules, a, ss, n, t.id, i) :: MadeFrom(rules, ss[i]).Ok? && t == MadeFrom(rules, ss[i]).value.section)
    && (forall t | t in sections && !IsReplaced(rules, a, ss, n, t.id) :: t in a.sections)
  }

  ghost predicate IsOldLimitation(rules: Rules, a: Article, ss: seq<AuthorSection>, n: nat, l: Limitation) {
    l in a.limitations && forall id | id in l.sectionIds :: !IsReplaced(rules, a, ss, n, id)
  }

  ghost predicate IsNewLimitation(rules: Rules, a: Article, ss: seq<AuthorSection>, n: nat, l: Limitation) {
    exists i: nat :: i < |ss| && IsLastFor(rules, a, ss, n, TargetOf(rules, ss[i]), i) && MadeFrom(rules, ss[i]).Ok? && l in MadeFrom(rules, ss[i]).value.limitations
  }

  /** Limitations of chapters that were not replaced, and those of the last entry for each chapter. */
  ghost predicate LimitationsAre(rules: Rules, a: Article, ss: seq<AuthorSection>, n: nat, ls: seq<Limitation>) {
    forall l :: l in ls <==> IsOldLimitation(rules, a, ss, n, l) || IsNewLimitation(rules, a, ss, n, l)
  }

  ghost predicate CitesAt(rules: Rules, a: Article, ss: seq<AuthorSection>, i: nat, id: string) {
    IsTaken(rules, a, ss, i) && MadeFrom(rules, ss[i]).Ok? && id in MadeFrom(rules, ss[i]).value.citations
  }

  ghost predicate LastCites(rules: Rules, a: Article, ss: seq<AuthorSection>, n: nat, id: string, i: nat) {
    i < n && CitesAt(rules, a, ss, i, id) && forall j: nat | i < j < n :: !CitesAt(rules, a, ss, j, id)
  }

  /** The citation of the last entry that brings one, or the old one. */
  ghost predicate CitationIs(rules: Rules, a: Article, ss: seq<AuthorSection>, n: nat, citations: map<string, Citation>, id: string) {
    && (forall i: nat | i < |ss| && LastCites(rules, a, ss, n, id, i) :: id in citations && MadeFrom(rules, ss[i]).Ok? && id in MadeFrom(rules, ss[i]).value.citations && citations[id] == MadeFrom(rules, ss[i]).value.citations[id])
    && ((forall j: nat | j < n :: !CitesAt(rules, a, ss, j, id)) ==>
          (id in citations <==> id in a.citations) && (id in citations ==> citations[id] == a.citations[id]))
  }

  ghost predicate CitationsAre(rules: Rules, a: Article, ss: seq<AuthorSection>, n: nat, citations: map<string, Citation>) {
    forall id :: CitationIs(rules, a, ss, n, citations, id)
  }

  ghost predicate NotesAt(rules: Rules, a: Article, ss: seq<AuthorSection>, i: nat, frame: string) {
    IsTaken(rules, a, ss, i) && MadeFrom(rules, ss[i]).Ok? && frame in MadeFrom(rules, ss[i]).value.notes
  }

  ghost predicate LastNotes(rules: Rules, a: Article, ss: seq<AuthorSection>, n: nat, frame: string, i: nat) {
    i < n && NotesAt(rules, a, ss, i, frame) && forall j: nat | i < j < n :: !NotesAt(rules, a, ss, j, frame)
  }

  ghost predicate NoteIs(rules: Rules, d: Draft, ss: seq<AuthorSection>, n: nat, notes: map<string, Note>, f: string) {
    && (forall i: nat | i < |ss| && LastNotes(rules, d.article, ss, n, f, i) :: f in notes && MadeFrom(rules, ss[i]).Ok? && f in MadeFrom(rules, ss[i]).value.notes && notes[f] == MadeFrom(rules, ss[i]).value.notes[f])
    && ((forall j: nat | j < n :: !NotesAt(rules, d.article, ss, j, f)) ==> (f in notes <==> f in d.notes) && (f in notes ==> notes[f] == d.notes[f]))
  }

  ghost predicate NotesAre(rules: Rules, d: Draft, ss: seq<AuthorSection>, n: nat, notes: map<string, Note>) {
    forall f :: NoteIs(rules, d, ss, n, notes, f)
  }

  ghost predicate Ascending(at: seq<nat>) {
    forall l, m | 0 <= l < m < |at| :: at[l] < at[m]
  }

  /** The entries that were taken, and those that were refused, in their order. */
  ghost predicate TakenAt(rules: Rules, a: Article, ss: seq<AuthorSection>, n: nat, taken: seq<nat>) {
    Ascending(taken) && forall i: nat :: i in taken <==> i < n && IsTaken(rules, a, ss, i)
  }

  ghost predicate RefusedAt(rules: Rules, a: Article, ss: seq<AuthorSection>, n: nat, refused: seq<nat>) {
    Ascending(refused) && forall i: nat :: i in refused <==> i < n && !IsTaken(rules, a, ss, i)
  }

  predicate AcceptedAre(rules: Rules, ss: seq<AuthorSection>, accepted: seq<string>, taken: seq<nat>) {
    |accepted| == |taken| && forall m | 0 <= m < |taken| :: taken[m] < |ss| && accepted[m] == TargetOf(rules, ss[taken[m]])
  }

  predicate RejectedAre(rejected: seq<Rejection>, refused: seq<nat>) {
    |rejected| == |refused| && forall m | 0 <= m < |refused| :: rejected[m].OfSection? && rejected[m].index == refused[m]
  }

  ghost predicate Creates(rules: Rules, a: Article, ss: seq<AuthorSection>, i: nat, k: string) {
    IsTaken(rules, a, ss, i) && ss[i].sectionId == "" && ss[i].key == k
  }

  ghost predicate CreatedAre(rules: Rules, a: Article, ss: seq<AuthorSection>, n: nat, created: map<string, string>) {
    && (forall k :: k in created <==> exists i: nat :: i < n && Creates(rules, a, ss, i, k))
    && forall i: nat, k | i < n && i < |ss| && Creates(rules, a, ss, i, k) :: k in created && created[k] == TargetOf(rules, ss[i])
  }

  ghost predicate ReceiptIs(rules: Rules, a: Article, ss: seq<AuthorSection>, n: nat, r: Receipt, taken: seq<nat>, refused: seq<nat>) {
    && TakenAt(rules, a, ss, n, taken) && RefusedAt(rules, a, ss, n, refused)
    && AcceptedAre(rules, ss, r.accepted, taken) && RejectedAre(r.rejected, refused) && CreatedAre(rules, a, ss, n, r.created)
  }

  /** Old chapters keep their places; new ones follow in the order of the request. */
  ghost predicate PlacesAre(rules: Rules, a: Article, ss: seq<AuthorSection>, n: nat, sections: seq<Section>, made: seq<nat>) {
    MadeAt(rules, a, ss, n, made) && StandsAt(rules, a, ss, sections, made)
  }

  ghost predicate MadeAt(rules: Rules, a: Article, ss: seq<AuthorSection>, n: nat, made: seq<nat>) {
    Ascending(made) && forall i: nat :: i in made <==> i < n && IsTaken(rules, a, ss, i) && ss[i].sectionId == ""
  }

  predicate StandsAt(rules: Rules, a: Article, ss: seq<AuthorSection>, sections: seq<Section>, made: seq<nat>) {
    && |sections| == |a.sections| + |made| && (forall k | 0 <= k < |a.sections| :: sections[k].id == a.sections[k].id)
    && forall m | 0 <= m < |made| :: made[m] < |ss| && sections[|a.sections| + m].id == TargetOf(rules, ss[made[m]])
  }

  // ----- one entry

  /** An entry is taken exactly when it is fit and its chapter is there as it should be. */
  lemma ExamineExactly(rules: Rules, a: Article, s: AuthorSection)
    ensures Examine(rules, Catalog(rules.world), a, s).Ok? <==> IsFit(rules, s) && (s.sectionId != "" <==> HasId(a.sections, TargetOf(rules, s)))
    ensures Examine(rules, Catalog(rules.world), a, s).Ok? ==>
      var e := Examine(rules, Catalog(rules.world), a, s).value; e.id == TargetOf(rules, s) && MadeFrom(rules, s) == Ok(e.compiled) && (e.at >= 0 <==> s.sectionId != "")
  {
    hide Catalog, CompileSection, NewId;
    var at := IndexOf(a.sections, TargetOf(rules, s));
    assert HasId(a.sections, TargetOf(rules, s)) <==> at >= 0;
  }

  lemma ThereNext(rules: Rules, a: Article, ss: seq<AuthorSection>, n: nat, id: string)
    requires 0 < n <= |ss|
    ensures IsThere(rules, a, ss, n, id) <==> IsThere(rules, a, ss, n - 1, id) || (IsTaken(rules, a, ss, n - 1) && TargetOf(rules, ss[n - 1]) == id)
    ensures IsReplaced(rules, a, ss, n, id) <==> IsReplaced(rules, a, ss, n - 1, id) || (IsTaken(rules, a, ss, n - 1) && TargetOf(rules, ss[n - 1]) == id)
  {
    hide IsTaken, TargetOf, HasId;
  }

  lemma LastNext(rules: Rules, a: Article, ss: seq<AuthorSection>, n: nat, id: string, i: nat)
    requires 0 < n <= |ss|
    ensures var here := IsTaken(rules, a, ss, n - 1) && TargetOf(rules, ss[n - 1]) == id;
      IsLastFor(rules, a, ss, n, id, i) <==> if here then i == n - 1 else IsLastFor(rules, a, ss, n - 1, id, i)
  {
    hide IsTaken, TargetOf;
  }

  lemma NothingTaken(rules: Rules, a: Article, ss: seq<AuthorSection>)
    ensures forall id, i: nat :: !IsLastFor(rules, a, ss, 0, id, i)
    ensures forall id :: !IsReplaced(rules, a, ss, 0, id) && (IsThere(rules, a, ss, 0, id) <==> HasId(a.sections, id))
  {
  }

  ghost predicate HasLast(rules: Rules, a: Article, ss: seq<AuthorSection>, n: nat, id: string) {
    exists i: nat :: IsLastFor(rules, a, ss, n, id, i)
  }

  /** Every replaced chapter has a last entry. */
  lemma {:induction false} ReplacedHasLast(rules: Rules, a: Article, ss: seq<AuthorSection>, n: nat, id: string)
    requires n <= |ss|
    ensures IsReplaced(rules, a, ss, n, id) <==> HasLast(rules, a, ss, n, id)
  {
    hide IsTaken, TargetOf, IsLastFor, IsReplaced;
    if n > 0 {
      ReplacedHasLast(rules, a, ss, n - 1, id);
      ThereNext(rules, a, ss, n, id);
      forall i: nat ensures IsLastFor(rules, a, ss, n, id, i) <==> if IsTaken(rules, a, ss, n - 1) && TargetOf(rules, ss[n - 1]) == id then i == n - 1 else IsLastFor(rules, a, ss, n - 1, id, i) {
        LastNext(rules, a, ss, n, id, i);
      }
      if IsTaken(rules, a, ss, n - 1) && TargetOf(rules, ss[n - 1]) == id {
        assert IsLastFor(rules, a, ss, n, id, n - 1);
      } else if HasLast(rules, a, ss, n - 1, id) {
        var i: nat :| IsLastFor(rules, a, ss, n - 1, id, i);
        assert IsLastFor(rules, a, ss, n, id, i);
      }
    } else {
      NothingTaken(rules, a, ss);
    }
  }

  // ----- chapters

  lemma IdsInstalled(a: Article, at: int, c: Compiled, id: string)
    requires at < |a.sections| && (at >= 0 ==> a.sections[at].id == c.section.id)
    ensures HasId(Install(a, at, c).sections, id) <==> HasId(a.sections, id) || c.section.id == id
  {
    hide Unscoped;
    var out := Install(a, at, c).sections;
    if HasId(a.sections, id) {
      var k :| 0 <= k < |a.sections| && a.sections[k].id == id;
      assert out[k].id == id;
    }
    if c.section.id == id {
      assert out[if at >= 0 then at else |a.sections|] == c.section;
    }
  }

  lemma SectionsNext(rules: Rules, a: Article, ss: seq<AuthorSection>, n: nat, x: Article, at: int)
    requires 0 < n <= |ss| && SectionsAre(rules, a, ss, n - 1, x.sections) && Distinct(SectionIds(x.sections))
    requires IsTaken(rules, a, ss, n - 1) && MadeFrom(rules, ss[n - 1]).Ok? && at < |x.sections|
    requires var c := MadeFrom(rules, ss[n - 1]).value; c.section.id == TargetOf(rules, ss[n - 1]) && (at >= 0 ==> x.sections[at].id == c.section.id) && (at < 0 ==> !HasId(x.sections, c.section.id))
    ensures SectionsAre(rules, a, ss, n, Install(x, at, MadeFrom(rules, ss[n - 1]).value).sections)
  {
    hide IsTaken, TargetOf, IsThere, IsLastFor, IsReplaced, MadeFrom, Unscoped, Distinct, SectionIds;
    var c := MadeFrom(rules, ss[n - 1]).value;
    var out := Install(x, at, c).sections;
    forall id ensures HasId(out, id) <==> IsThere(rules, a, ss, n, id) {
      ThereNext(rules, a, ss, n, id);
      IdsInstalled(x, at, c, id);
    }
    forall t | t in out ensures t == c.section || (t in x.sections && t.id != c.section.id) {
      PutMembers(x.sections, at, c.section, t);
    }
    forall t, i: nat | t in out && i < |ss| && IsLastFor(rules, a, ss, n, t.id, i) ensures MadeFrom(rules, ss[i]).Ok? && t == MadeFrom(rules, ss[i]).value.section {
      LastNext(rules, a, ss, n, t.id, i);
    }
    forall t | t in out && !IsReplaced(rules, a, ss, n, t.id) ensures t in a.sections {
      ThereNext(rules, a, ss, n, t.id);
    }
  }

  lemma PutMembers(sections: seq<Section>, at: int, s: Section, t: Section)
    requires at < |sections| && Distinct(SectionIds(sections)) && (at >= 0 ==> sections[at].id == s.id) && (at < 0 ==> !HasId(sections, s.id))
    requires t in Put(sections, at, s)
    ensures t == s || (t in sections && t.id != s.id)
  {
    var out := Put(sections, at, s);
    var k :| 0 <= k < |out| && out[k] == t;
    if k != at && k < |sections| {
      if at >= 0 {
        assert SectionIds(sections)[k] != SectionIds(sections)[at];
      }
    }
  }

  lemma SectionsStay(rules: Rules, a: Article, ss: seq<AuthorSection>, n: nat, sections: seq<Section>)
    requires 0 < n <= |ss| && SectionsAre(rules, a, ss, n - 1, sections) && !IsTaken(rules, a, ss, n - 1)
    ensures SectionsAre(rules, a, ss, n, sections)
  {
    hide IsTaken, TargetOf, IsThere, IsLastFor, IsReplaced, MadeFrom, HasId;
    forall id ensures IsThere(rules, a, ss, n, id) <==> IsThere(rules, a, ss, n - 1, id) {
      ThereNext(rules, a, ss, n, id);
    }
    forall t, i: nat | t in sections && i < |ss| && IsLastFor(rules, a, ss, n, t.id, i) ensures MadeFrom(rules, ss[i]).Ok? && t == MadeFrom(rules, ss[i]).value.section {
      LastNext(rules, a, ss, n, t.id, i);
    }
    forall t | t in sections && !IsReplaced(rules, a, ss, n, t.id) ensures t in a.sections {
      ThereNext(rules, a, ss, n, t.id);
    }
  }

  lemma AscendsMore(at: seq<nat>, n: nat)
    requires Ascending(at) && forall i | i in at :: i < n
    ensures Ascending(at + [n]) && forall i: nat :: i in at + [n] <==> i in at || i == n
  {
    forall l | 0 <= l < |at| ensures at[l] < n {
      assert at[l] in at;
    }
  }

  lemma MadeNext(rules: Rules, a: Article, ss: seq<AuthorSection>, n: nat, made: seq<nat>)
    requires 0 < n <= |ss| && MadeAt(rules, a, ss, n - 1, made)
    ensures MadeAt(rules, a, ss, n, if IsTaken(rules, a, ss, n - 1) && ss[n - 1].sectionId == "" then made + [n - 1] else made)
  {
    hide IsTaken, Ascending;
    AscendsMore(made, n - 1);
  }

  lemma StandsNext(rules: Rules, a: Article, ss: seq<AuthorSection>, n: nat, sections: seq<Section>, made: seq<nat>, at: int, s: Section)
    requires 0 < n <= |ss| && StandsAt(rules, a, ss, sections, made) && at < |sections| && s.id == TargetOf(rules, ss[n - 1]) && (at >= 0 ==> sections[at].id == s.id)
    ensures StandsAt(rules, a, ss, Put(sections, at, s), if at >= 0 then made else made + [n - 1])
  {
    hide TargetOf;
    var out, more := Put(sections, at, s), if at >= 0 then made else made + [n - 1];
    forall k | 0 <= k < |a.sections| ensures out[k].id == a.sections[k].id {
      assert sections[k].id == a.sections[k].id;
    }
    forall m | 0 <= m < |more| ensures more[m] < |ss| && out[|a.sections| + m].id == TargetOf(rules, ss[more[m]]) {
      if m < |made| {
        assert sections[|a.sections| + m].id == TargetOf(rules, ss[made[m]]);
      }
    }
  }

  // ----- limitations

  lemma {:induction false} UnscopedAre(ls: seq<Limitation>, id: string, n: nat)
    requires n <= |ls|
    ensures forall l :: l in Unscoped(ls, id, n) <==> l in ls[..n] && id !in l.sectionIds
  {
    if n > 0 {
      UnscopedAre(ls, id, n - 1);
      TakeOneMore(ls, n);
    }
  }

  lemma LimitationsNext(rules: Rules, a: Article, ss: seq<AuthorSection>, n: nat, ls: seq<Limitation>)
    requires 0 < n <= |ss| && LimitationsAre(rules, a, ss, n - 1, ls) && IsTaken(rules, a, ss, n - 1) && MadeFrom(rules, ss[n - 1]).Ok?
    ensures var id := TargetOf(rules, ss[n - 1]); LimitationsAre(rules, a, ss, n, Unscoped(ls, id, |ls|) + MadeFrom(rules, ss[n - 1]).value.limitations)
  {
    hide IsTaken, TargetOf, IsLastFor, IsReplaced, MadeFrom, Unscoped, IsOldLimitation, IsNewLimitation;
    var id, more := TargetOf(rules, ss[n - 1]), MadeFrom(rules, ss[n - 1]).value.limitations;
    UnscopedAre(ls, id, |ls|);
    assert ls[..|ls|] == ls;
    forall l ensures l in Unscoped(ls, id, |ls|) + more <==> IsOldLimitation(rules, a, ss, n, l) || IsNewLimitation(rules, a, ss, n, l) {
      OldNext(rules, a, ss, n, l);
      NewNext(rules, a, ss, n, l);
    }
  }

  lemma OldNext(rules: Rules, a: Article, ss: seq<AuthorSection>, n: nat, l: Limitation)
    requires 0 < n <= |ss| && IsTaken(rules, a, ss, n - 1)
    ensures IsOldLimitation(rules, a, ss, n, l) <==> IsOldLimitation(rules, a, ss, n - 1, l) && TargetOf(rules, ss[n - 1]) !in l.sectionIds
  {
    hide IsTaken, TargetOf, IsReplaced;
    forall id ensures IsReplaced(rules, a, ss, n, id) <==> IsReplaced(rules, a, ss, n - 1, id) || TargetOf(rules, ss[n - 1]) == id {
      ThereNext(rules, a, ss, n, id);
    }
  }

  /** A compiled limitation concerns its own chapter. */
  lemma MadeScope(rules: Rules, s: AuthorSection)
    requires MadeFrom(rules, s).Ok?
    ensures MadeFrom(rules, s).value.section.id == TargetOf(rules, s)
    ensures forall l | l in MadeFrom(rules, s).value.limitations :: l.sectionIds == [TargetOf(rules, s)]
  {
    hide Catalog, CompileUnits, Observe, Observed, TargetOf, LimitationProblem, TrimSpace;
    MadeLimits(Catalog(rules.world), TargetOf(rules, s), s.limitations, |s.limitations|);
  }

  lemma {:induction false} MadeLimits(cat: map<string, Citation>, id: string, ls: seq<ScopedLimitation>, n: nat)
    requires n <= |ls| && CompileLimitations(cat, id, ls, n).Ok?
    ensures forall l | l in CompileLimitations(cat, id, ls, n).value.parts :: l.sectionIds == [id]
  {
    hide LimitationProblem;
    if n > 0 {
      MadeLimits(cat, id, ls, n - 1);
    }
  }

  lemma NewNext(rules: Rules, a: Article, ss: seq<AuthorSection>, n: nat, l: Limitation)
    requires 0 < n <= |ss| && IsTaken(rules, a, ss, n - 1) && MadeFrom(rules, ss[n - 1]).Ok?
    ensures IsNewLimitation(rules, a, ss, n, l) <==> l in MadeFrom(rules, ss[n - 1]).value.limitations || (IsNewLimitation(rules, a, ss, n - 1, l) && TargetOf(rules, ss[n - 1]) !in l.sectionIds)
  {
    hide IsTaken, TargetOf, IsLastFor, MadeFrom;
    var id := TargetOf(rules, ss[n - 1]);
    LastNext(rules, a, ss, n, id, n - 1);
    forall i: nat | i < |ss| && MadeFrom(rules, ss[i]).Ok? && l in MadeFrom(rules, ss[i]).value.limitations ensures l.sectionIds == [TargetOf(rules, ss[i])] {
      MadeScope(rules, ss[i]);
    }
    forall i: nat | i < |ss| ensures var own := TargetOf(rules, ss[i]); IsLastFor(rules, a, ss, n, own, i) <==> if own == id then i == n - 1 else IsLastFor(rules, a, ss, n - 1, own, i) {
      LastNext(rules, a, ss, n, TargetOf(rules, ss[i]), i);
    }
  }

  lemma LimitationsStay(rules: Rules, a: Article, ss: seq<AuthorSection>, n: nat, ls: seq<Limitation>)
    requires 0 < n <= |ss| && LimitationsAre(rules, a, ss, n - 1, ls) && !IsTaken(rules, a, ss, n - 1)
    ensures LimitationsAre(rules, a, ss, n, ls)
  {
    hide IsTaken, TargetOf, IsLastFor, IsReplaced, MadeFrom;
    forall id ensures IsReplaced(rules, a, ss, n, id) <==> IsReplaced(rules, a, ss, n - 1, id) {
      ThereNext(rules, a, ss, n, id);
    }
    forall id, i: nat ensures IsLastFor(rules, a, ss, n, id, i) <==> IsLastFor(rules, a, ss, n - 1, id, i) {
      LastNext(rules, a, ss, n, id, i);
    }
    forall l ensures IsOldLimitation(rules, a, ss, n, l) == IsOldLimitation(rules, a, ss, n - 1, l) && IsNewLimitation(rules, a, ss, n, l) == IsNewLimitation(rules, a, ss, n - 1, l) {
    }
  }

  lemma NoLimitationYet(rules: Rules, a: Article, ss: seq<AuthorSection>)
    ensures LimitationsAre(rules, a, ss, 0, a.limitations)
  {
    hide IsTaken, TargetOf, MadeFrom;
    forall l ensures IsOldLimitation(rules, a, ss, 0, l) == (l in a.limitations) && !IsNewLimitation(rules, a, ss, 0, l) {
    }
  }

  // ----- citations and notes

  lemma LastCitesNext(rules: Rules, a: Article, ss: seq<AuthorSection>, n: nat, id: string, i: nat)
    requires 0 < n <= |ss|
    ensures LastCites(rules, a, ss, n, id, i) <==> if CitesAt(rules, a, ss, n - 1, id) then i == n - 1 else LastCites(rules, a, ss, n - 1, id, i)
  {
    hide CitesAt;
  }

  lemma CitationNext(rules: Rules, a: Article, ss: seq<AuthorSection>, n: nat, citations: map<string, Citation>, citations': map<string, Citation>, id: string)
    requires 0 < n <= |ss| && CitationIs(rules, a, ss, n - 1, citations, id)
    requires if IsTaken(rules, a, ss, n - 1) then MadeFrom(rules, ss[n - 1]).Ok? && citations' == citations + MadeFrom(rules, ss[n - 1]).value.citations else citations' == citations
    ensures CitationIs(rules, a, ss, n, citations', id)
  {
    hide LastCites, MadeFrom, CitesAt;
    CitesHere(rules, a, ss, n - 1, id);
    forall i: nat ensures LastCites(rules, a, ss, n, id, i) <==> if CitesAt(rules, a, ss, n - 1, id) then i == n - 1 else LastCites(rules, a, ss, n - 1, id, i) {
      LastCitesNext(rules, a, ss, n, id, i);
    }
  }

  lemma CitesHere(rules: Rules, a: Article, ss: seq<AuthorSection>, i: nat, id: string)
    requires i < |ss|
    ensures CitesAt(rules, a, ss, i, id) <==> IsTaken(rules, a, ss, i) && MadeFrom(rules, ss[i]).Ok? && id in MadeFrom(rules, ss[i]).value.citations
  {
    hide IsTaken, MadeFrom;
  }

  lemma CitationsNext(rules: Rules, a: Article, ss: seq<AuthorSection>, n: nat, citations: map<string, Citation>, citations': map<string, Citation>)
    requires 0 < n <= |ss| && CitationsAre(rules, a, ss, n - 1, citations)
    requires if IsTaken(rules, a, ss, n - 1) then MadeFrom(rules, ss[n - 1]).Ok? && citations' == citations + MadeFrom(rules, ss[n - 1]).value.citations else citations' == citations
    ensures CitationsAre(rules, a, ss, n, citations')
  {
    hide IsTaken, MadeFrom, CitationIs;
    forall id ensures CitationIs(rules, a, ss, n, citations', id) {
      CitationNext(rules, a, ss, n, citations, citations', id);
    }
  }

  lemma LastNotesNext(rules: Rules, a: Article, ss: seq<AuthorSection>, n: nat, f: string, i: nat)
    requires 0 < n <= |ss|
    ensures LastNotes(rules, a, ss, n, f, i) <==> if NotesAt(rules, a, ss, n - 1, f) then i == n - 1 else LastNotes(rules, a, ss, n - 1, f, i)
  {
    hide NotesAt;
  }

  lemma NotesHere(rules: Rules, a: Article, ss: seq<AuthorSection>, i: nat, f: string)
    requires i < |ss|
    ensures NotesAt(rules, a, ss, i, f) <==> IsTaken(rules, a, ss, i) && MadeFrom(rules, ss[i]).Ok? && f in MadeFrom(rules, ss[i]).value.notes
  {
    hide IsTaken, MadeFrom;
  }

  lemma NoteNext(rules: Rules, d: Draft, ss: seq<AuthorSection>, n: nat, notes: map<string, Note>, notes': map<string, Note>, f: string)
    requires 0 < n <= |ss| && NoteIs(rules, d, ss, n - 1, notes, f)
    requires if IsTaken(rules, d.article, ss, n - 1) then MadeFrom(rules, ss[n - 1]).Ok? && notes' == notes + MadeFrom(rules, ss[n - 1]).value.notes else notes' == notes
    ensures NoteIs(rules, d, ss, n, notes', f)
  {
    hide LastNotes, MadeFrom, NotesAt;
    NotesHere(rules, d.article, ss, n - 1, f);
    forall i: nat ensures LastNotes(rules, d.article, ss, n, f, i) <==> if NotesAt(rules, d.article, ss, n - 1, f) then i == n - 1 else LastNotes(rules, d.article, ss, n - 1, f, i) {
      LastNotesNext(rules, d.article, ss, n, f, i);
    }
  }

  lemma NotesNext(rules: Rules, d: Draft, ss: seq<AuthorSection>, n: nat, notes: map<string, Note>, notes': map<string, Note>)
    requires 0 < n <= |ss| && NotesAre(rules, d, ss, n - 1, notes)
    requires if IsTaken(rules, d.article, ss, n - 1) then MadeFrom(rules, ss[n - 1]).Ok? && notes' == notes + MadeFrom(rules, ss[n - 1]).value.notes else notes' == notes
    ensures NotesAre(rules, d, ss, n, notes')
  {
    hide IsTaken, MadeFrom, NoteIs;
    forall f ensures NoteIs(rules, d, ss, n, notes', f) {
      NoteNext(rules, d, ss, n, notes, notes', f);
    }
  }

  // ----- the receipt

  lemma PickNext(rules: Rules, a: Article, ss: seq<AuthorSection>, n: nat, taken: seq<nat>, refused: seq<nat>)
    requires 0 < n <= |ss| && TakenAt(rules, a, ss, n - 1, taken) && RefusedAt(rules, a, ss, n - 1, refused)
    ensures IsTaken(rules, a, ss, n - 1) ==> TakenAt(rules, a, ss, n, taken + [n - 1]) && RefusedAt(rules, a, ss, n, refused)
    ensures !IsTaken(rules, a, ss, n - 1) ==> TakenAt(rules, a, ss, n, taken) && RefusedAt(rules, a, ss, n, refused + [n - 1])
  {
    hide IsTaken, Ascending;
    AscendsMore(taken, n - 1);
    AscendsMore(refused, n - 1);
  }

  lemma CreatedNext(rules: Rules, a: Article, ss: seq<AuthorSection>, n: nat, created: map<string, string>)
    requires 0 < n <= |ss| && CreatedAre(rules, a, ss, n - 1, created) && IsTaken(rules, a, ss, n - 1)
    requires ss[n - 1].sectionId == "" ==> ss[n - 1].key !in created
    ensures CreatedAre(rules, a, ss, n, if ss[n - 1].sectionId == "" then created[ss[n - 1].key := TargetOf(rules, ss[n - 1])] else created)
  {
    hide IsTaken, TargetOf;
    var created' := if ss[n - 1].sectionId == "" then created[ss[n - 1].key := TargetOf(rules, ss[n - 1])] else created;
    forall k: string {:trigger k in created'} ensures k in created' <==> exists i: nat :: i < n && Creates(rules, a, ss, i, k) {
      if k in created {
        var i: nat :| i < n - 1 && Creates(rules, a, ss, i, k);
      } else if k in created' {
        assert Creates(rules, a, ss, n - 1, k);
      }
    }
  }

  lemma CreatedStay(rules: Rules, a: Article, ss: seq<AuthorSection>, n: nat, created: map<string, string>)
    requires 0 < n <= |ss| && CreatedAre(rules, a, ss, n - 1, created) && !IsTaken(rules, a, ss, n - 1)
    ensures CreatedAre(rules, a, ss, n, created)
  {
    hide IsTaken, TargetOf;
  }

  lemma ReceiptTakes(rules: Rules, a: Article, ss: seq<AuthorSection>, n: nat, r: Receipt, taken: seq<nat>, refused: seq<nat>, r': Receipt)
    requires 0 < n <= |ss| && ReceiptIs(rules, a, ss, n - 1, r, taken, refused) && IsTaken(rules, a, ss, n - 1)
    requires ss[n - 1].sectionId == "" ==> ss[n - 1].key !in r.created
    requires var s := ss[n - 1]; r' == r.(accepted := r.accepted + [TargetOf(rules, s)], created := if s.sectionId == "" then r.created[s.key := TargetOf(rules, s)] else r.created)
    ensures ReceiptIs(rules, a, ss, n, r', taken + [n - 1], refused)
  {
    hide IsTaken, TargetOf, TakenAt, RefusedAt, CreatedAre;
    PickNext(rules, a, ss, n, taken, refused);
    CreatedNext(rules, a, ss, n, r.created);
  }

  lemma ReceiptRefuses(rules: Rules, a: Article, ss: seq<AuthorSection>, n: nat, r: Receipt, taken: seq<nat>, refused: seq<nat>, reason: Reason)
    requires 0 < n <= |ss| && ReceiptIs(rules, a, ss, n - 1, r, taken, refused) && !IsTaken(rules, a, ss, n - 1)
    ensures ReceiptIs(rules, a, ss, n, r.(rejected := r.rejected + [OfSection(n - 1, reason)]), taken, refused + [n - 1])
  {
    hide IsTaken, TargetOf, TakenAt, RefusedAt, CreatedAre;
    PickNext(rules, a, ss, n, taken, refused);
    CreatedStay(rules, a, ss, n, r.created);
  }

  // ----- all entries

  /** The draft after the first `n` entries: where its new chapters were made, and which entries were taken
      and refused. */
  ghost predicate DraftIs(rules: Rules, d: Draft, ss: seq<AuthorSection>, n: nat, x: Draft, made: seq<nat>, taken: seq<nat>, refused: seq<nat>) {
    var a := d.article;
    && x.article.title == a.title && SectionsAre(rules, a, ss, n, x.article.sections) && PlacesAre(rules, a, ss, n, x.article.sections, made)
    && LimitationsAre(rules, a, ss, n, x.article.limitations) && CitationsAre(rules, a, ss, n, x.article.citations) && NotesAre(rules, d, ss, n, x.notes)
    && ReceiptIs(rules, a, ss, n, x.receipt, taken, refused)
  }

  lemma KeyIsFresh(rules: Rules, a: Article, ss: seq<AuthorSection>, n: nat, created: map<string, string>)
    requires 0 < n <= |ss| && CreatedAre(rules, a, ss, n - 1, created) && IsTaken(rules, a, ss, n - 1) && ss[n - 1].sectionId == ""
    ensures ss[n - 1].key !in created
  {
    hide NewId, IsFit;
  }

  lemma NothingApplied(rules: Rules, d: Draft, ss: seq<AuthorSection>)
    requires d.receipt == NO_RECEIPT
    ensures DraftIs(rules, d, ss, 0, d, [], [], [])
  {
    hide MadeFrom, IsTaken, CitationIs, NoteIs, IsLastFor, IsReplaced, IsThere, LimitationsAre;
    NothingTaken(rules, d.article, ss);
    NoLimitationYet(rules, d.article, ss);
    forall id ensures CitationIs(rules, d.article, ss, 0, d.article.citations, id) {
      NothingCited(rules, d, ss, id);
    }
    forall f ensures NoteIs(rules, d, ss, 0, d.notes, f) {
      NothingNoted(rules, d, ss, f);
    }
  }

  lemma NothingCited(rules: Rules, d: Draft, ss: seq<AuthorSection>, id: string)
    ensures CitationIs(rules, d.article, ss, 0, d.article.citations, id)
  {
    hide CitesAt, MadeFrom;
  }

  lemma NothingNoted(rules: Rules, d: Draft, ss: seq<AuthorSection>, f: string)
    ensures NoteIs(rules, d, ss, 0, d.notes, f)
  {
    hide NotesAt, MadeFrom;
  }

  lemma TakenIsApplied(rules: Rules, d: Draft, ss: seq<AuthorSection>, n: nat, x: Draft, made: seq<nat>, taken: seq<nat>, refused: seq<nat>)
    requires 0 < n <= |ss| && DraftIs(rules, d, ss, n - 1, x, made, taken, refused) && Distinct(SectionIds(x.article.sections)) && IsTaken(rules, d.article, ss, n - 1)
    ensures var x' := Apply(rules, Catalog(rules.world), x, n - 1, ss[n - 1]);
      DraftIs(rules, d, ss, n, x', if ss[n - 1].sectionId == "" then made + [n - 1] else made, taken + [n - 1], refused) && Distinct(SectionIds(x'.article.sections))
  {
    hide Catalog, Examine, MadeFrom, IsTaken, TargetOf, Unscoped, SectionsAre, LimitationsAre, CitationsAre, NotesAre, Distinct, SectionIds, MadeAt, StandsAt, TakenAt, RefusedAt, AcceptedAre, RejectedAre, CreatedAre, ReceiptIs, PlacesAre, HasId;
    var a, s := d.article, ss[n - 1];
    TakenIsExamined(rules, d, ss, n, x);
    var e := Examine(rules, Catalog(rules.world), x.article, s).value;
    PutKeepsDistinct(x.article.sections, e.at, e.compiled.section);
    SectionsNext(rules, a, ss, n, x.article, e.at);
    PlacesNext(rules, a, ss, n, x.article.sections, made, e.at, e.compiled.section);
    LimitationsNext(rules, a, ss, n, x.article.limitations);
    CitationsNext(rules, a, ss, n, x.article.citations, x.article.citations + e.compiled.citations);
    NotesNext(rules, d, ss, n, x.notes, x.notes + e.compiled.notes);
    ReceiptNext(rules, a, ss, n, x.receipt, taken, refused);
  }

  lemma TakenIsExamined(rules: Rules, d: Draft, ss: seq<AuthorSection>, n: nat, x: Draft)
    requires 0 < n <= |ss| && SectionsAre(rules, d.article, ss, n - 1, x.article.sections)
    ensures IsTaken(rules, d.article, ss, n - 1) <==> Examine(rules, Catalog(rules.world), x.article, ss[n - 1]).Ok?
    ensures IsTaken(rules, d.article, ss, n - 1) ==>
      var s, e := ss[n - 1], Examine(rules, Catalog(rules.world), x.article, ss[n - 1]).value;
        && e.id == TargetOf(rules, s) == e.compiled.section.id && MadeFrom(rules, s) == Ok(e.compiled) && (e.at >= 0 <==> s.sectionId != "")
        && (e.at >= 0 ==> x.article.sections[e.at].id == e.id) && (e.at < 0 ==> !HasId(x.article.sections, e.id))
  {
    hide Catalog, Examine, MadeFrom, TargetOf, IsFit, IsThere;
    ExamineExactly(rules, x.article, ss[n - 1]);
  }

  lemma PlacesNext(rules: Rules, a: Article, ss: seq<AuthorSection>, n: nat, sections: seq<Section>, made: seq<nat>, at: int, s: Section)
    requires 0 < n <= |ss| && PlacesAre(rules, a, ss, n - 1, sections, made) && IsTaken(rules, a, ss, n - 1)
    requires at < |sections| && s.id == TargetOf(rules, ss[n - 1]) && (at >= 0 ==> sections[at].id == s.id) && (at >= 0 <==> ss[n - 1].sectionId != "")
    ensures PlacesAre(rules, a, ss, n, Put(sections, at, s), if ss[n - 1].sectionId == "" then made + [n - 1] else made)
  {
    hide IsTaken, TargetOf, MadeAt, StandsAt, Put;
    MadeNext(rules, a, ss, n, made);
    StandsNext(rules, a, ss, n, sections, made, at, s);
  }

  lemma ReceiptNext(rules: Rules, a: Article, ss: seq<AuthorSection>, n: nat, r: Receipt, taken: seq<nat>, refused: seq<nat>)
    requires 0 < n <= |ss| && ReceiptIs(rules, a, ss, n - 1, r, taken, refused) && IsTaken(rules, a, ss, n - 1)
    ensures var s := ss[n - 1]; ReceiptIs(rules, a, ss, n, r.(accepted := r.accepted + [TargetOf(rules, s)], created := if s.sectionId == "" then r.created[s.key := TargetOf(rules, s)] else r.created), taken + [n - 1], refused)
  {
    hide IsTaken, TargetOf, TakenAt, RefusedAt, CreatedAre, AcceptedAre, RejectedAre;
    if ss[n - 1].sectionId == "" {
      KeyIsFresh(rules, a, ss, n, r.created);
    }
    ReceiptTakes(rules, a, ss, n, r, taken, refused, r.(accepted := r.accepted + [TargetOf(rules, ss[n - 1])], created := if ss[n - 1].sectionId == "" then r.created[ss[n - 1].key := TargetOf(rules, ss[n - 1])] else r.created));
  }

  lemma RefusedIsApplied(rules: Rules, d: Draft, ss: seq<AuthorSection>, n: nat, x: Draft, made: seq<nat>, taken: seq<nat>, refused: seq<nat>)
    requires 0 < n <= |ss| && DraftIs(rules, d, ss, n - 1, x, made, taken, refused) && !IsTaken(rules, d.article, ss, n - 1)
    ensures var x' := Apply(rules, Catalog(rules.world), x, n - 1, ss[n - 1]); DraftIs(rules, d, ss, n, x', made, taken, refused + [n - 1]) && x'.article == x.article
  {
    hide Catalog, Examine, MadeFrom, IsTaken, SectionsAre, LimitationsAre, CitationsAre, NotesAre, MadeAt, StandsAt, ReceiptIs;
    var a := d.article;
    TakenIsExamined(rules, d, ss, n, x);
    SectionsStay(rules, a, ss, n, x.article.sections);
    MadeNext(rules, a, ss, n, made);
    LimitationsStay(rules, a, ss, n, x.article.limitations);
    CitationsNext(rules, a, ss, n, x.article.citations, x.article.citations);
    NotesNext(rules, d, ss, n, x.notes, x.notes);
    ReceiptRefuses(rules, a, ss, n, x.receipt, taken, refused, Examine(rules, Catalog(rules.world), x.article, ss[n - 1]).reason);
  }

  /** MAIN RESULT: after a batch of entries the draft is this one. */
  lemma {:induction false} ApplyAllIs(rules: Rules, d: Draft, ss: seq<AuthorSection>, n: nat) returns (made: seq<nat>, taken: seq<nat>, refused: seq<nat>)
    requires n <= |ss| && Distinct(SectionIds(d.article.sections)) && d.receipt == NO_RECEIPT
    ensures var x := ApplyAll(rules, Catalog(rules.world), d, ss, n); DraftIs(rules, d, ss, n, x, made, taken, refused) && Distinct(SectionIds(x.article.sections))
  {
    hide Catalog, Apply, IsTaken, DraftIs, Distinct, SectionIds;
    if n == 0 {
      made, taken, refused := [], [], [];
      NothingApplied(rules, d, ss);
    } else {
      made, taken, refused := ApplyAllIs(rules, d, ss, n - 1);
      var x := ApplyAll(rules, Catalog(rules.world), d, ss, n - 1);
      if IsTaken(rules, d.article, ss, n - 1) {
        TakenIsApplied(rules, d, ss, n, x, made, taken, refused);
        made, taken := if ss[n - 1].sectionId == "" then made + [n - 1] else made, taken + [n - 1];
      } else {
        RefusedIsApplied(rules, d, ss, n, x, made, taken, refused);
        refused := refused + [n - 1];
      }
    }
  }
}
