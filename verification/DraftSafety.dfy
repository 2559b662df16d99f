/** What every accepted write keeps: chapters have distinct identities, at most forty of them; the
    citations are exactly those in use; every chapter is what some chapter in the author language
    compiles to. */
module DraftSafety {
  import opened Lists
  import opened Wrappers
  import opened ArticleBlocks
  import opened AuthorLanguage
  import opened AuthorRoundTrip
  import opened SectionRoundTrip
  import opened DraftWrite

  // ----- compiled sections refer to what they bring

  lemma CompiledRefers(w: World, s: AuthorSection, id: string)
    requires WellFormed(w) && CompileSection(w, Catalog(w), s, id).Ok?
    ensures var c := CompileSection(w, Catalog(w), s, id).value; c.section.id == id && Meaningful(w, c.citations) && (forall b | b in c.section.blocks :: Refers(c.citations, b))
    ensures var c := CompileSection(w, Catalog(w), s, id).value; forall l | l in c.limitations :: l.sectionIds == [id] && forall ref | ref in l.citationIds :: ref in c.citations
  {
    hide Catalog, WellFormed, CompileUnits, CompileLimitations, CompileUnit, Meaning, BlockCitations, Observe;
    SectionParts(w, s, id);
    CompiledUnits(w, id, s.content, |s.content|);
    LimitationsMade(w, id, s.limitations, |s.limitations|);
    var us := CompileUnits(w, Catalog(w), id, s.content, |s.content|).value;
    var ls := CompileLimitations(Catalog(w), id, s.limitations, |s.limitations|).value;
    var c := CompileSection(w, Catalog(w), s, id).value;
    CatalogMeans(w, ls.citations);
    forall b | b in c.section.blocks ensures Refers(c.citations, b) {
      var k :| 0 <= k < |us.blocks| && us.blocks[k] == b;
      assert UnitAt(w, id, s.content, us, k);
      UnitIsConsistent(w, BlockId(id, k), s.content[k]);
    }
  }

  // ----- limitations by section

  ghost predicate SingleScoped(ls: seq<Limitation>) {
    forall l | l in ls :: |l.sectionIds| == 1
  }

  lemma {:induction false} ScopedToAppend(ls: seq<Limitation>, more: seq<Limitation>, id: string, n: nat)
    requires n <= |more|
    ensures ScopedTo(ls + more, id, |ls| + n) == ScopedTo(ls, id, |ls|) + ScopedTo(more, id, n)
  {
    if n > 0 {
      ScopedToAppend(ls, more, id, n - 1);
    } else {
      ScopedToPrefix(ls, more, id, |ls|);
    }
  }

  lemma {:induction false} ScopedToPrefix(ls: seq<Limitation>, more: seq<Limitation>, id: string, n: nat)
    requires n <= |ls|
    ensures ScopedTo(ls + more, id, n) == ScopedTo(ls, id, n)
  {
    if n > 0 {
      ScopedToPrefix(ls, more, id, n - 1);
    }
  }

  lemma {:induction false} ScopedToOther(ls: seq<Limitation>, own: string, id: string, n: nat)
    requires n <= |ls| && forall l | l in ls :: l.sectionIds == [own]
    ensures ScopedTo(ls, id, n) == if own == id then ls[..n] else []
  {
    if n > 0 {
      ScopedToOther(ls, own, id, n - 1);
      assert ls[..n] == ls[..n - 1] + [ls[n - 1]];
      assert ls[n - 1] in ls;
    }
  }

  lemma ScopedToSnoc(ls: seq<Limitation>, l: Limitation, id: string)
    ensures ScopedTo(ls + [l], id, |ls| + 1) == ScopedTo(ls, id, |ls|) + if ConcernsSection(l, id) then [l] else []
  {
    ScopedToAppend(ls, [l], id, 1);
    assert ScopedTo([l], id, 0) == [];
  }

  lemma ScopedToStep(ls: seq<Limitation>, id: string, n: nat)
    requires 0 < n <= |ls|
    ensures ScopedTo(ls, id, n) == ScopedTo(ls, id, n - 1) + if ConcernsSection(ls[n - 1], id) then [ls[n - 1]] else []
  {
  }

  /** A limitation of one section. */
  lemma SingleConcern(l: Limitation, id: string)
    requires |l.sectionIds| == 1
    ensures ConcernsSection(l, id) <==> id in l.sectionIds
    ensures forall other | id in l.sectionIds && other in l.sectionIds :: id == other
  {
  }

  lemma {:induction false} UnscopedKeeps(ls: seq<Limitation>, gone: string, id: string, n: nat)
    requires n <= |ls| && SingleScoped(ls)
    ensures var kept := Unscoped(ls, gone, n); SingleScoped(kept) && ScopedTo(kept, id, |kept|) == if id == gone then [] else ScopedTo(ls, id, n)
    ensures forall l | l in Unscoped(ls, gone, n) :: l in ls
  {
    hide ScopedTo, ConcernsSection;
    if n > 0 {
      UnscopedKeeps(ls, gone, id, n - 1);
      SingleConcern(ls[n - 1], id);
      ScopedToSnoc(Unscoped(ls, gone, n - 1), ls[n - 1], id);
      ScopedToStep(ls, id, n);
    } else {
      NoneScoped(ls, id);
    }
  }

  lemma NoneScoped(ls: seq<Limitation>, id: string)
    ensures ScopedTo(ls, id, 0) == [] && ScopedTo([], id, 0) == []
  {
  }

  lemma {:induction false} RelevantKeeps(ls: seq<Limitation>, ids: seq<string>, id: string, n: nat)
    requires n <= |ls| && SingleScoped(ls) && id in ids
    ensures var kept := Relevant(ls, ids, n); SingleScoped(kept) && ScopedTo(kept, id, |kept|) == ScopedTo(ls, id, n)
  {
    hide ScopedTo, ConcernsSection;
    if n > 0 {
      RelevantKeeps(ls, ids, id, n - 1);
      SingleConcern(ls[n - 1], id);
      ScopedToSnoc(Relevant(ls, ids, n - 1), ls[n - 1], id);
      ScopedToStep(ls, id, n);
    } else {
      NoneScoped(ls, id);
    }
  }

  lemma {:induction false} RelevantAre(ls: seq<Limitation>, ids: seq<string>, n: nat)
    requires n <= |ls|
    ensures forall l | l in Relevant(ls, ids, n) :: l in ls && Concerned(l, ids)
  {
    hide Concerned;
    if n > 0 {
      RelevantAre(ls, ids, n - 1);
    }
  }

  // ----- the invariant

  /** The section is what an author section compiled to at some moment of the run; with `tidy`, one that
      names every source of a unit once. */
  ghost predicate Authored(w': World, a: Article, section: Section, tidy: bool) {
    exists w, s :: AuthoredAs(w, w', a, s, section, tidy)
  }

  ghost predicate AuthoredAs(w: World, w': World, a: Article, s: AuthorSection, section: Section, tidy: bool) {
    WellFormed(w) && Extends(w, w') && SavedFrom(w, a, s, section) && (tidy ==> DistinctSection(s))
  }

  /** The invariant while a batch is applied. */
  ghost predicate Coherent(w: World, a: Article, tidy: bool) {
    && Distinct(SectionIds(a.sections))
    && Meaningful(w, a.citations)
    && SingleScoped(a.limitations)
    && (forall t | t in a.sections :: Authored(w, a, t, tidy))
    && (forall l, ref | l in a.limitations && ref in l.citationIds :: ref in a.citations)
  }

  /** The invariant of saved drafts. */
  ghost predicate Sound(w: World, a: Article, tidy: bool) {
    && Coherent(w, a, tidy)
    && |a.sections| <= MAX_SECTIONS
    && a.citations.Keys == Refs(a.sections, a.limitations)
    && (forall l | l in a.limitations :: l.sectionIds[0] in SectionIds(a.sections))
    && (a.quality == Standard <==> a.limitations == [])
  }

  lemma EmptyDraftIsSound(w: World, title: string, tidy: bool)
    ensures Sound(w, Article(title, [], map[], [], Standard), tidy)
  {
  }

  /** Compilation gave a section of the article its place. */
  lemma FreshIsAuthored(w: World, a: Article, at: int, s: AuthorSection, id: string, tidy: bool)
    requires WellFormed(w) && Coherent(w, a, tidy) && at < |a.sections| && CompileSection(w, Catalog(w), s, id).Ok?
    requires tidy ==> DistinctSection(s)
    ensures var c := CompileSection(w, Catalog(w), s, id).value; Authored(w, Install(a, at, c), c.section, tidy)
  {
    hide Catalog, WellFormed, CompileSection, ScopedTo, Unscoped, Meaning, DistinctSection, SectionIds, Put;
    var c := CompileSection(w, Catalog(w), s, id).value;
    CompiledRefers(w, s, id);
    var a' := Install(a, at, c);
    UnscopedKeeps(a.limitations, id, id, |a.limitations|);
    ScopedToAppend(Unscoped(a.limitations, id, |a.limitations|), c.limitations, id, |c.limitations|);
    ScopedToOther(c.limitations, id, id, |c.limitations|);
    assert c.limitations[..|c.limitations|] == c.limitations;
    assert SavedFrom(w, a', s, c.section);
    assert Extends(w, w);
    assert AuthoredAs(w, w, a', s, c.section, tidy);
  }

  /** Another section stays as it was authored. */
  lemma OtherStaysAuthored(w: World, a: Article, at: int, s: AuthorSection, id: string, t: Section, tidy: bool)
    requires WellFormed(w) && Coherent(w, a, tidy) && at < |a.sections| && CompileSection(w, Catalog(w), s, id).Ok?
    requires Authored(w, a, t, tidy) && t.id != id
    ensures Authored(w, Install(a, at, CompileSection(w, Catalog(w), s, id).value), t, tidy)
  {
    hide Catalog, WellFormed, CompileSection, ScopedTo, Unscoped, Meaning, DistinctSection, SectionIds, Put, Extends;
    var c := CompileSection(w, Catalog(w), s, id).value;
    CompiledRefers(w, s, id);
    var a' := Install(a, at, c);
    UnscopedKeeps(a.limitations, id, t.id, |a.limitations|);
    ScopedToAppend(Unscoped(a.limitations, id, |a.limitations|), c.limitations, t.id, |c.limitations|);
    ScopedToOther(c.limitations, id, t.id, |c.limitations|);
    var w0, s0 :| AuthoredAs(w0, w, a, s0, t, tidy);
    assert SavedFrom(w0, a', s0, t);
    assert AuthoredAs(w0, w, a', s0, t, tidy);
  }

  lemma PutKeepsDistinct(sections: seq<Section>, at: int, s: Section)
    requires at < |sections| && Distinct(SectionIds(sections))
    requires at >= 0 ==> sections[at].id == s.id
    requires at < 0 ==> forall t | t in sections :: t.id != s.id
    ensures Distinct(SectionIds(Put(sections, at, s)))
    ensures forall t | t in Put(sections, at, s) :: t == s || (t in sections && t.id != s.id)
  {
    var ids := SectionIds(sections);
    if at >= 0 {
      assert SectionIds(Put(sections, at, s)) == ids;
      forall t | t in Put(sections, at, s) ensures t == s || (t in sections && t.id != s.id) {
        var k :| 0 <= k < |sections| && Put(sections, at, s)[k] == t;
        if k != at {
          assert ids[k] != ids[at];
        }
      }
    } else {
      assert SectionIds(Put(sections, at, s)) == ids + [s.id];
      forall k | 0 <= k < |ids| ensures ids[k] != s.id {
        assert sections[k] in sections;
      }
    }
  }

  lemma InstallKeeps(w: World, a: Article, at: int, s: AuthorSection, id: string, tidy: bool)
    requires WellFormed(w) && Coherent(w, a, tidy) && at < |a.sections| && CompileSection(w, Catalog(w), s, id).Ok?
    requires (at >= 0 ==> a.sections[at].id == id) && (at < 0 ==> forall t | t in a.sections :: t.id != id)
    requires tidy ==> DistinctSection(s)
    ensures Coherent(w, Install(a, at, CompileSection(w, Catalog(w), s, id).value), tidy)
  {
    hide Catalog, WellFormed, CompileSection, Unscoped, Authored, DistinctSection, SectionIds, Put, Distinct, Meaning;
    var c := CompileSection(w, Catalog(w), s, id).value;
    CompiledRefers(w, s, id);
    UnscopedKeeps(a.limitations, id, id, |a.limitations|);
    PutKeepsDistinct(a.sections, at, c.section);
    FreshIsAuthored(w, a, at, s, id, tidy);
    forall t | t in Put(a.sections, at, c.section) && t != c.section ensures Authored(w, Install(a, at, c), t, tidy) {
      OtherStaysAuthored(w, a, at, s, id, t, tidy);
    }
  }

  lemma {:induction false} ApplyAllKeeps(rules: Rules, d: Draft, sections: seq<AuthorSection>, n: nat, tidy: bool)
    requires WellFormed(rules.world) && Coherent(rules.world, d.article, tidy) && n <= |sections|
    requires tidy ==> forall s | s in sections :: DistinctSection(s)
    ensures Coherent(rules.world, ApplyAll(rules, Catalog(rules.world), d, sections, n).article, tidy)
  {
    hide Catalog, WellFormed, Coherent, DistinctSection, CompileSection, Install;
    if n > 0 {
      ApplyAllKeeps(rules, d, sections, n - 1, tidy);
      var cat := Catalog(rules.world);
      var front := ApplyAll(rules, cat, d, sections, n - 1);
      var s := sections[n - 1];
      var e := Examine(rules, cat, front.article, s);
      if e.Ok? {
        ExamineCompiles(rules, front.article, s);
        InstallKeeps(rules.world, front.article, e.value.at, s, e.value.id, tidy);
      }
    }
  }

  lemma ExamineCompiles(rules: Rules, a: Article, s: AuthorSection)
    requires Examine(rules, Catalog(rules.world), a, s).Ok?
    ensures var e := Examine(rules, Catalog(rules.world), a, s).value; CompileSection(rules.world, Catalog(rules.world), s, e.id) == Ok(e.compiled)
  {
    hide Catalog, CompileSection;
  }

  // ----- structural edits

  ghost predicate KeyedById(m: map<string, Section>) {
    forall id | id in m :: m[id].id == id
  }

  lemma {:induction false} AvailableAre(sections: seq<Section>, n: nat)
    requires n <= |sections| && Distinct(SectionIds(sections))
    ensures var m := Available(sections, n); KeyedById(m) && (forall id | id in m :: m[id] in sections[..n]) && forall t | t in sections[..n] :: t.id in m && m[t.id] == t
  {
    if n > 0 {
      AvailableAre(sections, n - 1);
      TakeOneMore(sections, n);
      forall t | t in sections[..n - 1] ensures t.id != sections[n - 1].id {
        var k :| 0 <= k < n - 1 && sections[k] == t;
        assert SectionIds(sections)[k] != SectionIds(sections)[n - 1];
      }
    }
  }

  lemma {:induction false} DeletedAre(available: map<string, Section>, ids: seq<string>, n: nat)
    requires n <= |ids| && Delete(available, ids, n).Some?
    ensures Delete(available, ids, n).value == available - Elements(ids[..n]) && Elements(ids[..n]) <= available.Keys
  {
    if n > 0 {
      DeletedAre(available, ids, n - 1);
      TakeOneMore(ids, n);
    }
  }

  /** What an entry of an order stands for. */
  function Target(created: map<string, string>, key: string): string {
    if key in created && created[key] != "" then created[key] else key
  }

  lemma {:induction false} PlacedTargets(available: map<string, Section>, created: map<string, string>, order: seq<string>, n: nat)
    requires n <= |order| && KeyedById(available) && Place(available, created, order, n).Placed?
    ensures var p := Place(available, created, order, n); |p.sections| == n && forall id | id in p.left :: id in available && p.left[id] == available[id]
    ensures var p := Place(available, created, order, n); forall k | 0 <= k < n :: var id := Target(created, order[k]); p.sections[k].id == id && id in available && p.sections[k] == available[id]
  {
    if n > 0 {
      PlacedTargets(available, created, order, n - 1);
    }
  }

  lemma SectionIdsSnoc(sections: seq<Section>, t: Section)
    ensures SectionIds(sections + [t]) == SectionIds(sections) + [t.id]
    ensures Elements(SectionIds(sections + [t])) == Elements(SectionIds(sections)) + {t.id}
    ensures Distinct(SectionIds(sections)) && t.id !in SectionIds(sections) ==> Distinct(SectionIds(sections + [t]))
  {
    assert SectionIds(sections + [t]) == SectionIds(sections) + [t.id];
  }

  lemma RemoveOne(m: map<string, Section>, id: string)
    requires id in m
    ensures (m - {id}).Keys == m.Keys - {id} && |(m - {id}).Keys| == |m.Keys| - 1
  {
    assert (m - {id}).Keys == m.Keys - {id};
  }

  lemma PlaceStep(available: map<string, Section>, created: map<string, string>, order: seq<string>, n: nat)
    requires 0 < n <= |order| && Place(available, created, order, n).Placed?
    ensures var front, p, id := Place(available, created, order, n - 1), Place(available, created, order, n), Target(created, order[n - 1]); front.Placed? && id in front.left && p == Placed(front.sections + [front.left[id]], front.left - {id})
  {
  }

  lemma {:induction false} PlacedCount(available: map<string, Section>, created: map<string, string>, order: seq<string>, n: nat)
    requires n <= |order| && Place(available, created, order, n).Placed?
    ensures |Place(available, created, order, n).left.Keys| == |available.Keys| - n
  {
    hide Place, Target;
    if n > 0 {
      PlaceStep(available, created, order, n);
      PlacedCount(available, created, order, n - 1);
      RemoveOne(Place(available, created, order, n - 1).left, Target(created, order[n - 1]));
    } else {
      assert Place(available, created, order, 0) == Placed([], available) by { PlaceNothing(available, created, order); }
    }
  }

  lemma PlaceNothing(available: map<string, Section>, created: map<string, string>, order: seq<string>)
    ensures Place(available, created, order, 0) == Placed([], available)
  {
  }

  ghost predicate Splits(keys: set<string>, ids: seq<string>, left: set<string>) {
    Distinct(ids) && forall id :: id in keys <==> (id in ids || id in left) && (id in ids ==> id !in left)
  }

  lemma SplitsOneMore(keys: set<string>, ids: seq<string>, left: set<string>, id: string)
    requires Splits(keys, ids, left) && id in left && forall x | x in ids :: x !in left
    ensures Splits(keys, ids + [id], left - {id}) && forall x | x in ids + [id] :: x !in left - {id}
  {
    forall x ensures x in keys <==> (x in ids + [id] || x in left - {id}) && (x in ids + [id] ==> x !in left - {id}) {
    }
  }

  lemma {:induction false} PlacedLeft(available: map<string, Section>, created: map<string, string>, order: seq<string>, n: nat)
    requires n <= |order| && KeyedById(available) && Place(available, created, order, n).Placed?
    ensures var p := Place(available, created, order, n); Splits(available.Keys, SectionIds(p.sections), p.left.Keys)
    ensures var p := Place(available, created, order, n); forall x | x in SectionIds(p.sections) :: x !in p.left.Keys
  {
    hide Splits, SectionIds;
    if n > 0 {
      PlacedLeft(available, created, order, n - 1);
      PlacedTargets(available, created, order, n - 1);
      var front, id := Place(available, created, order, n - 1), Target(created, order[n - 1]);
      SectionIdsSnoc(front.sections, front.left[id]);
      RemoveOne(front.left, id);
      SplitsOneMore(available.Keys, SectionIds(front.sections), front.left.Keys, id);
    } else {
      NoSections(available.Keys);
    }
  }

  lemma NoSections(keys: set<string>)
    ensures SectionIds([]) == [] && Splits(keys, [], keys)
  {
  }

  /** All that is available is placed. */
  lemma PlacedIsAll(available: map<string, Section>, created: map<string, string>, order: seq<string>)
    requires KeyedById(available) && Place(available, created, order, |order|).Placed? && |order| == |available|
    ensures var next := Place(available, created, order, |order|).sections; forall t :: t in next <==> Holds(available, t)
    ensures Distinct(SectionIds(Place(available, created, order, |order|).sections))
  {
    hide Place, Distinct;
    PlacedLeft(available, created, order, |order|);
    PlacedCount(available, created, order, |order|);
    PlacedTargets(available, created, order, |order|);
    var next := Place(available, created, order, |order|).sections;
    assert Place(available, created, order, |order|).left.Keys == {};
    forall t | Holds(available, t) ensures t in next {
      assert t.id in SectionIds(next);
      var k :| 0 <= k < |next| && SectionIds(next)[k] == t.id;
      assert next[k].id == t.id;
    }
  }

  lemma MinusAt(m: map<string, Section>, ids: seq<string>, id: string)
    ensures id in m - Elements(ids) <==> id in m && id !in ids
    ensures id in m - Elements(ids) ==> (m - Elements(ids))[id] == m[id]
  {
  }

  lemma RetainedKeys(all: map<string, Section>, deleteIds: seq<string>, m: map<string, Section>)
    requires Delete(all, deleteIds, |deleteIds|) == Some(m)
    ensures forall id :: (id in m <==> id in all && id !in deleteIds) && (id in m ==> m[id] == all[id])
    ensures Elements(deleteIds) <= all.Keys
  {
    hide Delete, Elements;
    DeletedAre(all, deleteIds, |deleteIds|);
    assert deleteIds[..|deleteIds|] == deleteIds;
    forall id ensures (id in m <==> id in all && id !in deleteIds) && (id in m ==> m[id] == all[id]) {
      MinusAt(all, deleteIds, id);
    }
  }

  lemma KeyedAre(sections: seq<Section>)
    requires Distinct(SectionIds(sections))
    ensures var m := Available(sections, |sections|); KeyedById(m) && (forall id | id in m :: m[id] in sections) && forall t | t in sections :: Holds(m, t)
  {
    hide Available, Distinct, SectionIds;
    AvailableAre(sections, |sections|);
    assert sections[..|sections|] == sections;
  }

  ghost predicate Holds(m: map<string, Section>, t: Section) {
    t.id in m && m[t.id] == t
  }

  lemma AvailableHolds(sections: seq<Section>, t: Section)
    requires Distinct(SectionIds(sections))
    ensures Holds(Available(sections, |sections|), t) <==> t in sections
  {
    hide Available, Distinct, SectionIds;
    KeyedAre(sections);
  }

  lemma RetainedOne(sections: seq<Section>, deleteIds: seq<string>, m: map<string, Section>, t: Section)
    requires Distinct(SectionIds(sections)) && Delete(Available(sections, |sections|), deleteIds, |deleteIds|) == Some(m)
    ensures Holds(m, t) <==> t in sections && t.id !in deleteIds
  {
    hide Available, Delete, Distinct, SectionIds;
    AvailableHolds(sections, t);
    RetainedKeys(Available(sections, |sections|), deleteIds, m);
  }

  /** The chapters that remain available after the deletions. */
  lemma RetainedAre(sections: seq<Section>, deleteIds: seq<string>, m: map<string, Section>)
    requires Distinct(SectionIds(sections)) && Delete(Available(sections, |sections|), deleteIds, |deleteIds|) == Some(m)
    ensures KeyedById(m) && forall t {:trigger Holds(m, t)} {:trigger t in sections} :: Holds(m, t) <==> t in sections && t.id !in deleteIds
  {
    hide Available, Delete, Distinct, SectionIds, Holds;
    RetainedKeyed(sections, deleteIds, m);
    forall t ensures Holds(m, t) <==> t in sections && t.id !in deleteIds {
      RetainedOne(sections, deleteIds, m, t);
    }
  }

  lemma RetainedKeyed(sections: seq<Section>, deleteIds: seq<string>, m: map<string, Section>)
    requires Distinct(SectionIds(sections)) && Delete(Available(sections, |sections|), deleteIds, |deleteIds|) == Some(m)
    ensures KeyedById(m)
  {
    hide Available, Delete, Distinct, SectionIds;
    KeyedAre(sections);
    RetainedKeys(Available(sections, |sections|), deleteIds, m);
  }

  /** A structural edit keeps each chapter that is not deleted once, in the order asked for. */
  lemma RestructurePermutes(d: Draft, deleteIds: seq<string>, order: seq<string>)
    requires Distinct(SectionIds(d.article.sections)) && Restructure(d, deleteIds, order).Prepared?
    ensures var d' := Restructure(d, deleteIds, order).draft; d' == d.(article := d.article.(sections := d'.article.sections), receipt := d'.receipt) && Distinct(SectionIds(d'.article.sections))
    ensures var d' := Restructure(d, deleteIds, order).draft; forall t :: t in d'.article.sections <==> t in d.article.sections && t.id !in deleteIds
    ensures var d' := Restructure(d, deleteIds, order).draft; order != [] ==> |d'.article.sections| == |order| && forall k | 0 <= k < |order| :: d'.article.sections[k].id == Target(d.receipt.created, order[k])
    ensures d.receipt.rejected == [] && Restructure(d, deleteIds, order).draft.receipt.rejected == []
  {
    hide Available, Delete, Place, Remaining, Distinct, SectionIds, Target, Holds, KeyedById;
    var sections := d.article.sections;
    var available := Delete(Available(sections, |sections|), deleteIds, |deleteIds|).value;
    RetainedAre(sections, deleteIds, available);
    var complete := if order == [] then Remaining(sections, available, |sections|) else order;
    PlacedIsAll(available, d.receipt.created, complete);
    PlacedTargets(available, d.receipt.created, complete, |complete|);
  }

  /** Of two chapters that are kept, the one that stood first still stands first. */
  ghost predicate InOldOrder(before: seq<Section>, after: seq<Section>) {
    forall p, q, i, j | 0 <= p < q < |before| && 0 <= i < |after| && 0 <= j < |after| && after[i] == before[p] && after[j] == before[q] :: i < j
  }

  /** Where the chapters that remain stood. */
  ghost function RemainingAt(sections: seq<Section>, available: map<string, Section>, n: nat): (at: seq<nat>)
    requires n <= |sections|
    ensures (forall i | 0 <= i < |at| :: at[i] < n) && forall i, j | 0 <= i < j < |at| :: at[i] < at[j]
  {
    if n == 0 then []
    else if sections[n - 1].id in available then RemainingAt(sections, available, n - 1) + [n - 1]
    else RemainingAt(sections, available, n - 1)
  }

  lemma {:induction false} RemainingAre(sections: seq<Section>, available: map<string, Section>, n: nat)
    requires n <= |sections|
    ensures var at, ids := RemainingAt(sections, available, n), Remaining(sections, available, n); |ids| == |at| && forall i | 0 <= i < |ids| :: ids[i] == sections[at[i]].id && ids[i] in available
  {
    if n > 0 {
      RemainingAre(sections, available, n - 1);
    }
  }

  /** An order of available chapters, none twice, is taken at its word: a chapter whose identity is also
      a creation key is refused. */
  lemma {:induction false} PlacedAsNamed(available: map<string, Section>, created: map<string, string>, order: seq<string>, n: nat)
    requires n <= |order| && Distinct(order) && KeyedById(available) && (forall id | id in order :: id in available)
    requires Place(available, created, order, n).Placed?
    ensures var p := Place(available, created, order, n); |p.sections| == n && forall k | 0 <= k < n :: p.sections[k].id == order[k]
    ensures var p := Place(available, created, order, n); forall id | id in available && id !in order[..n] :: id in p.left && p.left[id] == available[id]
  {
    hide Place, Target;
    if n > 0 {
      PlaceStep(available, created, order, n);
      PlacedAsNamed(available, created, order, n - 1);
      assert order[n - 1] in order && order[n - 1] !in order[..n - 1];
      NamedIsItself(available, created, order, n);
      forall id | id in available && id !in order[..n] ensures id !in order[..n - 1] && id != order[n - 1] {
        assert order[..n] == order[..n - 1] + [order[n - 1]];
      }
    } else {
      PlaceNothing(available, created, order);
    }
  }

  lemma NamedIsItself(available: map<string, Section>, created: map<string, string>, order: seq<string>, n: nat)
    requires 0 < n <= |order| && Place(available, created, order, n).Placed? && Place(available, created, order, n - 1).Placed?
    requires order[n - 1] in Place(available, created, order, n - 1).left
    ensures Target(created, order[n - 1]) == order[n - 1]
  {
  }

  lemma RemainingDistinct(sections: seq<Section>, available: map<string, Section>)
    requires Distinct(SectionIds(sections))
    ensures Distinct(Remaining(sections, available, |sections|))
  {
    hide Remaining, RemainingAt;
    RemainingAre(sections, available, |sections|);
    var all, at := Remaining(sections, available, |sections|), RemainingAt(sections, available, |sections|);
    forall i, j | 0 <= i < j < |all| ensures all[i] != all[j] {
      assert SectionIds(sections)[at[i]] != SectionIds(sections)[at[j]];
    }
  }

  lemma OldOrderFromIds(sections: seq<Section>, available: map<string, Section>, after: seq<Section>)
    requires Distinct(SectionIds(sections)) && |after| == |Remaining(sections, available, |sections|)|
    requires forall k | 0 <= k < |after| :: after[k].id == Remaining(sections, available, |sections|)[k]
    ensures InOldOrder(sections, after)
  {
    hide Remaining, RemainingAt;
    RemainingAre(sections, available, |sections|);
    var at := RemainingAt(sections, available, |sections|);
    forall k, p | 0 <= k < |after| && 0 <= p < |sections| && after[k] == sections[p] ensures at[k] == p {
      OneWithId(sections, at[k], p);
    }
  }

  lemma OneWithId(sections: seq<Section>, p: nat, q: nat)
    requires Distinct(SectionIds(sections)) && p < |sections| && q < |sections| && sections[p].id == sections[q].id
    ensures p == q
  {
    assert SectionIds(sections)[p] == SectionIds(sections)[q];
  }

  /** Without an order asked for, the chapters that are not deleted keep theirs. */
  lemma RestructureKeepsOrder(d: Draft, deleteIds: seq<string>)
    requires Distinct(SectionIds(d.article.sections)) && Restructure(d, deleteIds, []).Prepared?
    ensures InOldOrder(d.article.sections, Restructure(d, deleteIds, []).draft.article.sections)
  {
    hide Available, Delete, Place, Remaining, Distinct, SectionIds, InOldOrder, KeyedById;
    var sections := d.article.sections;
    var available := Delete(Available(sections, |sections|), deleteIds, |deleteIds|).value;
    RetainedAre(sections, deleteIds, available);
    RemainingAre(sections, available, |sections|);
    RemainingDistinct(sections, available);
    var complete := Remaining(sections, available, |sections|);
    PlacedAsNamed(available, d.receipt.created, complete, |complete|);
    OldOrderFromIds(sections, available, Restructure(d, deleteIds, []).draft.article.sections);
  }

  lemma RestructureKeeps(w: World, d: Draft, deleteIds: seq<string>, order: seq<string>, tidy: bool)
    requires Coherent(w, d.article, tidy) && Restructure(d, deleteIds, order).Prepared?
    ensures Coherent(w, Restructure(d, deleteIds, order).draft.article, tidy)
  {
    hide Restructure, Distinct, Meaningful, SavedFrom, Extends, WellFormed, DistinctSection;
    RestructurePermutes(d, deleteIds, order);
    var a' := Restructure(d, deleteIds, order).draft.article;
    forall t | t in a'.sections ensures Authored(w, a', t, tidy) {
      var w0, s0 :| AuthoredAs(w0, w, d.article, s0, t, tidy);
      SameContext(w0, d.article, a', s0, t);
      assert AuthoredAs(w0, w, a', s0, t, tidy);
    }
  }

  lemma SameContext(w: World, a: Article, a': Article, s: AuthorSection, t: Section)
    requires SavedFrom(w, a, s, t) && a'.citations == a.citations && a'.limitations == a.limitations
    ensures SavedFrom(w, a', s, t)
  {
    hide CompileSection, ScopedTo, Refers;
  }

  // ----- what is kept

  lemma {:induction false} BlockRefsAre(bs: seq<Block>, n: nat, id: string)
    requires n <= |bs|
    ensures id in BlockRefs(bs, n) <==> exists k | 0 <= k < n :: id in BlockCitations(bs[k])
  {
    hide BlockCitations;
    if n > 0 {
      BlockRefsAre(bs, n - 1, id);
    }
  }

  lemma {:induction false} SectionRefsAre(sections: seq<Section>, n: nat, id: string)
    requires n <= |sections|
    ensures id in SectionRefs(sections, n) <==> exists k | 0 <= k < n :: id in BlockRefs(sections[k].blocks, |sections[k].blocks|)
  {
    hide BlockRefs;
    if n > 0 {
      SectionRefsAre(sections, n - 1, id);
    }
  }

  lemma {:induction false} LimitationRefsAre(ls: seq<Limitation>, n: nat, id: string)
    requires n <= |ls|
    ensures id in LimitationRefs(ls, n) <==> exists k | 0 <= k < n :: id in ls[k].citationIds
  {
    if n > 0 {
      LimitationRefsAre(ls, n - 1, id);
    }
  }

  /** A reference is in use exactly when a block or a limitation makes it. */
  lemma RefsAre(sections: seq<Section>, ls: seq<Limitation>, id: string)
    ensures id in Refs(sections, ls) <==> (exists t, b :: t in sections && b in t.blocks && id in BlockCitations(b)) || exists l :: l in ls && id in l.citationIds
  {
    hide BlockCitations, SectionRefs, BlockRefs, LimitationRefs;
    SectionRefsAre(sections, |sections|, id);
    LimitationRefsAre(ls, |ls|, id);
    forall t | t in sections ensures id in BlockRefs(t.blocks, |t.blocks|) <==> exists b :: b in t.blocks && id in BlockCitations(b) {
      BlockRefsAre(t.blocks, |t.blocks|, id);
      if b :| b in t.blocks && id in BlockCitations(b) {
        var k :| 0 <= k < |t.blocks| && t.blocks[k] == b;
      }
    }
    if t, b :| t in sections && b in t.blocks && id in BlockCitations(b) {
      var k :| 0 <= k < |sections| && sections[k] == t;
    }
    if l :| l in ls && id in l.citationIds {
      var k :| 0 <= k < |ls| && ls[k] == l;
    }
  }

  lemma PruneKeepsAuthored(w: World, a: Article, t: Section, tidy: bool)
    requires Coherent(w, a, tidy) && t in a.sections
    ensures Authored(w, Prune(a), t, tidy)
  {
    hide Meaningful, Extends, WellFormed, DistinctSection, CompileSection, Distinct, ScopedTo, Relevant, Refs, BlockCitations;
    var w0, s0 :| AuthoredAs(w0, w, a, s0, t, tidy);
    var ids, a' := SectionIds(a.sections), Prune(a);
    var k :| 0 <= k < |a.sections| && a.sections[k] == t;
    assert ids[k] == t.id;
    RelevantKeeps(a.limitations, ids, t.id, |a.limitations|);
    forall b | b in t.blocks ensures Refers(a'.citations, b) {
      assert Refers(a.citations, b);
      forall ref | ref in BlockCitations(b) ensures ref in a'.citations {
        RefsAre(a.sections, a'.limitations, ref);
      }
    }
    forall l, ref | l in ScopedTo(a.limitations, t.id, |a.limitations|) && ref in l.citationIds ensures ref in a'.citations {
      ScopedToAre(a'.limitations, t.id, |a'.limitations|);
      RefsAre(a.sections, a'.limitations, ref);
    }
    assert SavedFrom(w0, a', s0, t);
    assert AuthoredAs(w0, w, a', s0, t, tidy);
  }

  lemma {:induction false} ScopedToAre(ls: seq<Limitation>, id: string, n: nat)
    requires n <= |ls|
    ensures forall l | l in ScopedTo(ls, id, n) :: l in ls
  {
    if n > 0 {
      ScopedToAre(ls, id, n - 1);
    }
  }

  lemma PruneCloses(w: World, a: Article, tidy: bool)
    requires Coherent(w, a, tidy) && |a.sections| <= MAX_SECTIONS
    ensures Sound(w, Prune(a), tidy)
  {
    hide Authored, Meaning, Distinct, Relevant, Refs, BlockCitations;
    var ids, a' := SectionIds(a.sections), Prune(a);
    forall t | t in a.sections ensures Authored(w, a', t, tidy) {
      PruneKeepsAuthored(w, a, t, tidy);
    }
    RelevantAre(a.limitations, ids, |a.limitations|);
    forall id | id in Refs(a.sections, a'.limitations) ensures id in a.citations {
      RefsAre(a.sections, a'.limitations, id);
      if t, b :| t in a.sections && b in t.blocks && id in BlockCitations(b) {
        AuthoredRefers(w, a, t, b, tidy);
      }
    }
    forall l | l in a'.limitations ensures |l.sectionIds| == 1 && l.sectionIds[0] in ids {
      assert l in a.limitations && Concerned(l, ids);
    }
    forall l, ref | l in a'.limitations && ref in l.citationIds ensures ref in a'.citations {
      RefsAre(a.sections, a'.limitations, ref);
    }
  }

  lemma AuthoredRefers(w: World, a: Article, t: Section, b: Block, tidy: bool)
    requires Authored(w, a, t, tidy) && b in t.blocks
    ensures Refers(a.citations, b)
  {
    hide Extends, WellFormed, DistinctSection, CompileSection, ScopedTo, Refers;
    var w0, s0 :| AuthoredAs(w0, w, a, s0, t, tidy);
  }

  /** An accepted write keeps the invariant of saved drafts. With `tidy` inputs and drafts, every
      chapter also survives its round trip. */
  lemma EditKeepsDraft(rules: Rules, d: Draft, input: SaveInput, tidy: bool)
    requires WellFormed(rules.world) && Sound(rules.world, d.article, tidy) && Edit(rules, d, input).Prepared?
    requires tidy ==> forall s | s in input.sections :: DistinctSection(s)
    ensures Sound(rules.world, Edit(rules, d, input).draft.article, tidy)
  {
    hide Catalog, WellFormed, DistinctSection, ApplyAll, Restructure, Prune, Ambiguous, Coherent;
    var w := rules.world;
    ApplyAllKeeps(rules, d.(receipt := NO_RECEIPT), input.sections, |input.sections|, tidy);
    var written := Written(rules, d, input);
    var applied := ApplyAll(rules, Catalog(w), d.(receipt := NO_RECEIPT), input.sections, |input.sections|);
    TitleIsFree(w, applied.article, written.article, tidy);
    if Structural(input) {
      RestructureKeeps(w, written, input.deleteIds, input.order, tidy);
      PruneCloses(w, Restructure(written, input.deleteIds, input.order).draft.article, tidy);
    } else {
      PruneCloses(w, written.article, tidy);
    }
  }

  lemma TitleIsFree(w: World, a: Article, a': Article, tidy: bool)
    requires Coherent(w, a, tidy) && a' == a.(title := a'.title)
    ensures Coherent(w, a', tidy)
  {
    hide Extends, WellFormed, DistinctSection, SavedFrom, Meaningful, Distinct, SectionIds;
    forall t | t in a'.sections ensures Authored(w, a', t, tidy) {
      var w0, s0 :| AuthoredAs(w0, w, a, s0, t, tidy);
      SameContext(w0, a, a', s0, t);
      assert AuthoredAs(w0, w, a', s0, t, tidy);
    }
  }

  // ----- which chapters a batch touches

  ghost predicate HasId(sections: seq<Section>, id: string) {
    exists t :: t in sections && t.id == id
  }

  ghost predicate IsCreated(created: map<string, string>, id: string) {
    exists key :: key in created && created[key] == id
  }

  /** Creations do not shadow each other. */
  ghost predicate OwnKeys(rules: Rules, a: Article, created: map<string, string>) {
    forall key | key in created :: created[key] == NewId(rules, key) && HasId(a.sections, created[key])
  }

  lemma InstalledIds(a: Article, at: int, c: Compiled, id: string)
    requires at < |a.sections| && (at >= 0 ==> a.sections[at].id == c.section.id)
    ensures HasId(Install(a, at, c).sections, id) <==> HasId(a.sections, id) || id == c.section.id
  {
    var sections := Put(a.sections, at, c.section);
    if at >= 0 {
      if HasId(a.sections, id) {
        var k :| 0 <= k < |a.sections| && a.sections[k].id == id;
        assert sections[k].id == id && sections[k] in sections;
      }
      assert sections[at] in sections && a.sections[at] in a.sections;
    } else {
      assert sections[|a.sections|] == c.section;
      if t :| t in a.sections && t.id == id {
        assert t in sections;
      }
    }
  }

  /** The chapters after a batch: those of before and those created. */
  lemma {:induction false} ApplyAllIds(rules: Rules, d: Draft, sections: seq<AuthorSection>, n: nat, id: string)
    requires n <= |sections| && d.receipt == NO_RECEIPT
    ensures var d' := ApplyAll(rules, Catalog(rules.world), d, sections, n); OwnKeys(rules, d'.article, d'.receipt.created) && (HasId(d'.article.sections, id) <==> HasId(d.article.sections, id) || IsCreated(d'.receipt.created, id))
  {
    hide Catalog, CompileSection, Install, HasId;
    if n > 0 {
      var cat := Catalog(rules.world);
      var front := ApplyAll(rules, cat, d, sections, n - 1);
      var d' := ApplyAll(rules, cat, d, sections, n);
      ApplyAllIds(rules, d, sections, n - 1, id);
      var e := Examine(rules, cat, front.article, sections[n - 1]);
      if e.Ok? {
        forall x ensures HasId(d'.article.sections, x) <==> HasId(front.article.sections, x) || x == e.value.id {
          InstalledIds(front.article, e.value.at, e.value.compiled, x);
        }
        ExamineCreates(rules, front.article, sections[n - 1]);
        CreatedAdds(rules, front.article, front.receipt.created, d'.receipt.created, sections[n - 1], e.value, id);
      }
    }
  }

  lemma ExamineCreates(rules: Rules, a: Article, s: AuthorSection)
    requires Examine(rules, Catalog(rules.world), a, s).Ok?
    ensures var e := Examine(rules, Catalog(rules.world), a, s).value; e.at < 0 ==> s.sectionId == "" && e.id == NewId(rules, s.key) && !HasId(a.sections, e.id)
    ensures var e := Examine(rules, Catalog(rules.world), a, s).value; e.at >= 0 ==> HasId(a.sections, e.id)
  {
    hide Catalog, CompileSection, NewId;
  }

  lemma CreatedAdds(rules: Rules, a: Article, created: map<string, string>, created': map<string, string>, s: AuthorSection, e: Entry, id: string)
    requires e.at < |a.sections| && OwnKeys(rules, a, created) && (e.at < 0 ==> s.sectionId == "" && e.id == NewId(rules, s.key) && !HasId(a.sections, e.id))
    requires created' == if e.at < 0 then created[s.key := e.id] else created
    ensures IsCreated(created', id) <==> IsCreated(created, id) || (e.at < 0 && id == e.id)
    ensures forall key | key in created' :: created'[key] == NewId(rules, key) && (HasId(a.sections, created'[key]) || created'[key] == e.id)
  {
    hide HasId;
    if e.at < 0 {
      assert s.key !in created;
      assert s.key in created' && created'[s.key] == e.id;
      if key :| key in created && created[key] == id {
        assert key in created' && created'[key] == id;
      }
    }
  }

  /** A structural edit saves exactly the chapters of before and the created ones, without the deleted
      ones, each once, in the order asked for, or else in the order they had; otherwise nothing is saved. */
  lemma StructuralEditPermutes(rules: Rules, d: Draft, input: SaveInput)
    requires WellFormed(rules.world) && Sound(rules.world, d.article, false) && Structural(input) && Edit(rules, d, input).Prepared?
    ensures var written, d' := Written(rules, d, input), Edit(rules, d, input).draft; Distinct(SectionIds(d'.article.sections)) && forall id :: HasId(d'.article.sections, id) <==> (HasId(d.article.sections, id) || IsCreated(written.receipt.created, id)) && id !in input.deleteIds
    ensures var written, d' := Written(rules, d, input), Edit(rules, d, input).draft; d'.receipt.rejected == [] && forall t | t in d'.article.sections :: t in written.article.sections
    ensures var written, d' := Written(rules, d, input), Edit(rules, d, input).draft; input.order != [] ==> |d'.article.sections| == |input.order| && forall k | 0 <= k < |input.order| :: d'.article.sections[k].id == Target(written.receipt.created, input.order[k])
    ensures input.order == [] ==> InOldOrder(Written(rules, d, input).article.sections, Edit(rules, d, input).draft.article.sections)
  {
    hide Catalog, WellFormed, ApplyAll, Restructure, Ambiguous, Coherent, Prune, SectionIds, Distinct, HasId, IsCreated, Target, InOldOrder;
    var w := rules.world;
    var fresh' := d.(receipt := NO_RECEIPT);
    ApplyAllKeeps(rules, fresh', input.sections, |input.sections|, false);
    var written := Written(rules, d, input);
    assert Distinct(SectionIds(written.article.sections)) by { CoherentDistinct(w, ApplyAll(rules, Catalog(w), fresh', input.sections, |input.sections|).article); }
    RestructurePermutes(written, input.deleteIds, input.order);
    if input.order == [] {
      RestructureKeepsOrder(written, input.deleteIds);
    }
    var placed := Restructure(written, input.deleteIds, input.order).draft;
    PruneKeepsSections(placed.article);
    forall id ensures HasId(placed.article.sections, id) <==> (HasId(d.article.sections, id) || IsCreated(written.receipt.created, id)) && id !in input.deleteIds {
      ApplyAllIds(rules, fresh', input.sections, |input.sections|, id);
      KeptIds(written.article.sections, placed.article.sections, input.deleteIds, id);
    }
  }

  lemma CoherentDistinct(w: World, a: Article)
    requires Coherent(w, a, false)
    ensures Distinct(SectionIds(a.sections))
  {
  }

  lemma PruneKeepsSections(a: Article)
    ensures Prune(a).sections == a.sections
  {
  }

  lemma KeptIds(sections: seq<Section>, kept: seq<Section>, deleteIds: seq<string>, id: string)
    requires forall t :: t in kept <==> t in sections && t.id !in deleteIds
    ensures HasId(kept, id) <==> HasId(sections, id) && id !in deleteIds
  {
  }

  // ----- rejected entries change nothing

  predicate Accepts(rules: Rules, d: Draft, sections: seq<AuthorSection>, n: nat)
    requires n < |sections|
  {
    Examine(rules, Catalog(rules.world), ApplyAll(rules, Catalog(rules.world), d, sections, n).article, sections[n]).Ok?
  }

  /** The entries of a batch that are accepted. */
  function Survivors(rules: Rules, d: Draft, sections: seq<AuthorSection>, n: nat): seq<AuthorSection>
    requires n <= |sections|
  {
    if n == 0 then []
    else if Accepts(rules, d, sections, n - 1) then Survivors(rules, d, sections, n - 1) + [sections[n - 1]]
    else Survivors(rules, d, sections, n - 1)
  }

  ghost predicate SameButRejections(d: Draft, d': Draft) {
    d' == d.(receipt := d.receipt.(rejected := d'.receipt.rejected))
  }

  /** `b` is what remains of `a` without its first entries. */
  ghost predicate EndsWith(a: seq<Rejection>, b: seq<Rejection>) {
    |b| <= |a| && a[|a| - |b|..] == b
  }

  lemma {:induction false} ApplyPrefix(rules: Rules, d: Draft, sections: seq<AuthorSection>, s: AuthorSection, n: nat)
    requires n <= |sections|
    ensures ApplyAll(rules, Catalog(rules.world), d, sections + [s], n) == ApplyAll(rules, Catalog(rules.world), d, sections, n)
  {
    hide Catalog, Apply;
    if n > 0 {
      ApplyPrefix(rules, d, sections, s, n - 1);
    }
  }

  lemma ApplySame(rules: Rules, d: Draft, d': Draft, i: nat, i': nat, s: AuthorSection)
    requires SameButRejections(d, d')
    ensures var e := Apply(rules, Catalog(rules.world), d, i, s); SameButRejections(e, Apply(rules, Catalog(rules.world), d', i', s))
    ensures !Examine(rules, Catalog(rules.world), d.article, s).Ok? ==> SameButRejections(Apply(rules, Catalog(rules.world), d, i, s), d')
    ensures Examine(rules, Catalog(rules.world), d.article, s).Ok? ==> Apply(rules, Catalog(rules.world), d', i', s).receipt.rejected == d'.receipt.rejected
  {
    hide Catalog, Examine, Install;
  }

  lemma {:induction false} SurvivorsSuffice(rules: Rules, d: Draft, sections: seq<AuthorSection>, n: nat)
    requires n <= |sections| && d.receipt.rejected == []
    ensures var kept := Survivors(rules, d, sections, n); var d' := ApplyAll(rules, Catalog(rules.world), d, kept, |kept|); SameButRejections(ApplyAll(rules, Catalog(rules.world), d, sections, n), d') && d'.receipt.rejected == []
  {
    hide Catalog, Examine, Apply, SameButRejections;
    if n > 0 {
      SurvivorsSuffice(rules, d, sections, n - 1);
      var front := Survivors(rules, d, sections, n - 1);
      var cat := Catalog(rules.world);
      ApplySame(rules, ApplyAll(rules, cat, d, sections, n - 1), ApplyAll(rules, cat, d, front, |front|), n - 1, |front|, sections[n - 1]);
      if Accepts(rules, d, sections, n - 1) {
        ApplyPrefix(rules, d, front, sections[n - 1], |front|);
      }
    } else {
      SameAsItself(d);
    }
  }

  lemma SameAsItself(d: Draft)
    ensures SameButRejections(d, d)
  {
  }

  lemma {:induction false} SurvivorsUnambiguous(rules: Rules, d: Draft, sections: seq<AuthorSection>, n: nat)
    requires n <= |sections| && !Ambiguous(sections, n)
    ensures var kept := Survivors(rules, d, sections, n); |kept| <= n && !Ambiguous(kept, |kept|) && Identities(kept, |kept|) <= Identities(sections, n)
    ensures forall s | s in Survivors(rules, d, sections, n) :: s in sections
  {
    hide Accepts;
    if n > 0 {
      SurvivorsUnambiguous(rules, d, sections, n - 1);
      var front := Survivors(rules, d, sections, n - 1);
      AmbiguousPrefix(front, sections[n - 1], |front|);
    }
  }

  lemma {:induction false} AmbiguousPrefix(sections: seq<AuthorSection>, s: AuthorSection, n: nat)
    requires n <= |sections|
    ensures Ambiguous(sections + [s], n) == Ambiguous(sections, n) && Identities(sections + [s], n) == Identities(sections, n)
  {
    if n > 0 {
      AmbiguousPrefix(sections, s, n - 1);
    }
  }

  /** A batch that does not restructure saves what its accepted entries alone would save, where a draft
      that fits still fits without its first rejections. */
  lemma RejectedChangeNothing(rules: Rules, d: Draft, input: SaveInput)
    requires !Structural(input) && Edit(rules, d, input).Prepared?
    requires rules.fits(input.(sections := Survivors(rules, d.(receipt := NO_RECEIPT), input.sections, |input.sections|)))
    requires forall a, b | SameButRejections(a, b) && EndsWith(a.receipt.rejected, b.receipt.rejected) && rules.retains(a) :: rules.retains(b)
    ensures var kept := input.(sections := Survivors(rules, d.(receipt := NO_RECEIPT), input.sections, |input.sections|)); var alone := Edit(rules, d, kept); alone.Prepared? && SameButRejections(Edit(rules, d, input).draft, alone.draft)
    ensures var kept := input.(sections := Survivors(rules, d.(receipt := NO_RECEIPT), input.sections, |input.sections|)); Edit(rules, d, kept).Prepared? ==> forall r | r in Edit(rules, d, kept).draft.receipt.rejected :: r.OfTitle?
  {
    hide Catalog, Edit, Written, Survivors, Finish, Ambiguous, SameButRejections, EndsWith;
    var fresh' := d.(receipt := NO_RECEIPT);
    PlainEdit(rules, d, input);
    SurvivorsUnambiguous(rules, fresh', input.sections, |input.sections|);
    var kept := input.(sections := Survivors(rules, fresh', input.sections, |input.sections|));
    PlainEdit(rules, d, kept);
    SameWritten(rules, d, input, kept);
    FinishAlike(rules, Written(rules, d, input), Written(rules, d, kept));
  }

  lemma FinishAlike(rules: Rules, a: Draft, b: Draft)
    requires Finish(rules, a).Prepared? && SameButRejections(a, b) && EndsWith(a.receipt.rejected, b.receipt.rejected)
    requires forall a, b | SameButRejections(a, b) && EndsWith(a.receipt.rejected, b.receipt.rejected) && rules.retains(a) :: rules.retains(b)
    ensures Finish(rules, b).Prepared? && SameButRejections(Finish(rules, a).draft, Finish(rules, b).draft) && Finish(rules, b).draft.receipt == b.receipt
  {
    hide Prune, EndsWith;
    assert SameButRejections(a.(article := Prune(a.article)), b.(article := Prune(b.article)));
  }

  predicate IsPlain(rules: Rules, input: SaveInput) {
    !Structural(input) && |input.sections| <= MAX_SECTIONS && rules.fits(input) && !input.mindMap && !Ambiguous(input.sections, |input.sections|)
  }

  lemma PlainEdit(rules: Rules, d: Draft, input: SaveInput)
    requires !Structural(input)
    ensures Edit(rules, d, input).Prepared? ==> IsPlain(rules, input)
    ensures IsPlain(rules, input) ==> Edit(rules, d, input) == Finish(rules, Written(rules, d, input))
  {
    hide Written, Finish, Ambiguous;
  }

  lemma SameWritten(rules: Rules, d: Draft, input: SaveInput, kept: SaveInput)
    requires kept == input.(sections := Survivors(rules, d.(receipt := NO_RECEIPT), input.sections, |input.sections|))
    ensures var whole, alone := Written(rules, d, input), Written(rules, d, kept); SameButRejections(whole, alone) && EndsWith(whole.receipt.rejected, alone.receipt.rejected) && forall r | r in alone.receipt.rejected :: r.OfTitle?
  {
    hide Catalog, ApplyAll, Survivors;
    SurvivorsSuffice(rules, d.(receipt := NO_RECEIPT), input.sections, |input.sections|);
  }

  // ----- later in the run

  lemma ExtendsOn(w: World, w': World, w'': World)
    requires Extends(w, w') && Extends(w', w'')
    ensures Extends(w, w'')
  {
  }

  /** A saved draft stays sound when more is delivered. */
  lemma SoundGrows(w: World, w': World, a: Article, tidy: bool)
    requires Extends(w, w') && Sound(w, a, tidy)
    ensures Sound(w', a, tidy)
  {
    hide Extends, WellFormed, DistinctSection, SavedFrom, Distinct, SectionIds, Meaning, Refs;
    forall id | id in a.citations ensures Meaning(w', id, a.citations[id]) {
      MeaningGrows(w, w', id, a.citations[id]);
    }
    forall t | t in a.sections ensures Authored(w', a, t, tidy) {
      var w0, s0 :| AuthoredAs(w0, w, a, s0, t, tidy);
      ExtendsOn(w0, w, w');
      assert AuthoredAs(w0, w', a, s0, t, tidy);
    }
  }
}
