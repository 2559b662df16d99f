/** When a save request is refused, and what the saved draft is otherwise: conditions on the draft before
    and the request (internal/investigator/article_loop_wire.go, `saveLoopSections`). */
module DraftOutcomes {
  import opened Lists
  import opened Text
  import opened Wrappers
  import opened ArticleBlocks
  import opened AuthorLanguage
  import opened DraftWrite
  import opened DraftSafety
  import opened DraftRequests

  // ----- deletions and the order

  predicate IsKey(created: map<string, string>, name: string) {
    name in created && created[name] != ""
  }

  ghost predicate IsKept(sections: seq<Section>, deleteIds: seq<string>, id: string) {
    HasId(sections, id) && id !in deleteIds
  }

  /** Entry `k` of an order stands for a chapter that no earlier entry stands for; a creation key that is
      also the name of a chapter is clear only once that chapter was named. */
  ghost predicate FitsAt(keys: iset<string>, created: map<string, string>, order: seq<string>, k: nat)
    requires k < |order|
  {
    && Target(created, order[k]) in keys && (forall j | 0 <= j < k :: Target(created, order[j]) != Target(created, order[k]))
    && (IsKey(created, order[k]) && order[k] in keys ==> exists j :: 0 <= j < k && Target(created, order[j]) == order[k])
  }

  ghost function Kept(sections: seq<Section>, deleteIds: seq<string>): iset<string> {
    iset id | IsKept(sections, deleteIds, id)
  }

  ghost predicate DeletesFit(sections: seq<Section>, deleteIds: seq<string>) {
    Distinct(deleteIds) && forall id | id in deleteIds :: HasId(sections, id)
  }

  /** Without an order, no kept chapter bears the name of a creation key. An order names every kept chapter
      once. */
  ghost predicate OrderFits(sections: seq<Section>, deleteIds: seq<string>, created: map<string, string>, order: seq<string>) {
    if order == [] then forall id | IsKept(sections, deleteIds, id) :: !IsKey(created, id)
    else
      && (forall k: nat | k < |order| :: FitsAt(Kept(sections, deleteIds), created, order, k))
      && forall id | IsKept(sections, deleteIds, id) :: exists k :: 0 <= k < |order| && Target(created, order[k]) == id
  }

  ghost function NamesOf(available: map<string, Section>): iset<string> {
    iset id | id in available
  }

  lemma {:induction false} DeleteExactly(available: map<string, Section>, ids: seq<string>, n: nat)
    requires n <= |ids|
    ensures Delete(available, ids, n).Some? <==> (forall k | 0 <= k < n :: ids[k] in available) && forall i, j | 0 <= i < j < n :: ids[i] != ids[j]
    ensures Delete(available, ids, n).Some? ==> forall id :: id in Delete(available, ids, n).value <==> id in available && forall k | 0 <= k < n :: ids[k] != id
  {
    if n > 0 {
      DeleteExactly(available, ids, n - 1);
    }
  }

  ghost predicate LeftAre(p: Placing, available: map<string, Section>, created: map<string, string>, order: seq<string>, n: nat)
    requires n <= |order|
  {
    p.Placed? && forall id :: id in p.left <==> id in available && forall j | 0 <= j < n :: Target(created, order[j]) != id
  }

  lemma PlaceNext(available: map<string, Section>, created: map<string, string>, order: seq<string>, n: nat)
    requires 0 < n <= |order| && LeftAre(Place(available, created, order, n - 1), available, created, order, n - 1)
    ensures Place(available, created, order, n).Placed? <==> FitsAt(NamesOf(available), created, order, n - 1)
    ensures Place(available, created, order, n).Placed? ==> LeftAre(Place(available, created, order, n), available, created, order, n)
  {
    hide Place;
    PlaceOne(available, created, order, n);
  }

  lemma PlaceOne(available: map<string, Section>, created: map<string, string>, order: seq<string>, n: nat)
    requires 0 < n <= |order| && Place(available, created, order, n - 1).Placed?
    ensures var front, id, p := Place(available, created, order, n - 1), Target(created, order[n - 1]), Place(available, created, order, n);
      && (p.Placed? <==> id in front.left && !(IsKey(created, order[n - 1]) && order[n - 1] in front.left))
      && (p.Placed? ==> p.left == front.left - {id})
  {
  }

  lemma {:induction false} PlaceExactly(available: map<string, Section>, created: map<string, string>, order: seq<string>, n: nat)
    requires n <= |order|
    ensures Place(available, created, order, n).Placed? <==> forall k: nat | k < n :: FitsAt(NamesOf(available), created, order, k)
    ensures Place(available, created, order, n).Placed? ==> LeftAre(Place(available, created, order, n), available, created, order, n)
  {
    hide Place, FitsAt, LeftAre, Target;
    if n == 0 {
      NothingPlaced(available, created, order);
    } else {
      PlaceExactly(available, created, order, n - 1);
      if Place(available, created, order, n - 1).Placed? {
        PlaceNext(available, created, order, n);
      } else {
        PlaceStops(available, created, order, n);
      }
    }
  }

  lemma PlaceStops(available: map<string, Section>, created: map<string, string>, order: seq<string>, n: nat)
    requires 0 < n <= |order| && !Place(available, created, order, n - 1).Placed?
    ensures !Place(available, created, order, n).Placed?
  {
  }

  lemma NothingPlaced(available: map<string, Section>, created: map<string, string>, order: seq<string>)
    ensures Place(available, created, order, 0).Placed? && LeftAre(Place(available, created, order, 0), available, created, order, 0)
  {
  }

  function Targets(created: map<string, string>, order: seq<string>): (out: seq<string>)
    ensures |out| == |order|
  {
    seq(|order|, k requires 0 <= k < |order| => Target(created, order[k]))
  }

  /** Names of as many different chapters as there are name them all. */
  lemma NamesAll(keys: set<string>, names: seq<string>)
    requires Distinct(names) && forall name | name in names :: name in keys
    ensures |names| == |keys| <==> forall id | id in keys :: id in names
  {
    ElementsCount(names);
    assert Elements(names) <= keys;
    if |names| == |keys| {
      SameSize(Elements(names), keys);
    }
    assert (forall id | id in keys :: id in names) <==> Elements(names) == keys;
  }

  lemma SameSize(a: set<string>, b: set<string>)
    requires a <= b && |a| == |b|
    ensures a == b
  {
    assert b == a + (b - a);
  }

  lemma OrderExactly(available: map<string, Section>, created: map<string, string>, order: seq<string>)
    ensures Place(available, created, order, |order|).Placed? && |order| == |available| <==>
            (forall k: nat | k < |order| :: FitsAt(NamesOf(available), created, order, k)) && forall id | id in available :: exists k :: 0 <= k < |order| && Target(created, order[k]) == id
  {
    hide Place, Target;
    PlaceExactly(available, created, order, |order|);
    if forall k: nat | k < |order| :: FitsAt(NamesOf(available), created, order, k) {
      var names := Targets(created, order);
      forall k: nat | k < |order| ensures names[k] in available && forall j | 0 <= j < k :: names[j] != names[k] {
        assert FitsAt(NamesOf(available), created, order, k);
      }
      NamesAll(available.Keys, names);
      forall id ensures id in names <==> exists k :: 0 <= k < |order| && Target(created, order[k]) == id {
        if k :| 0 <= k < |order| && Target(created, order[k]) == id {
          assert names[k] == id;
        }
      }
      assert |available.Keys| == |available|;
    }
  }

  /** Chapters that keep their order are placed unless one bears the name of a creation key. */
  lemma PlainOrderExactly(available: map<string, Section>, created: map<string, string>, ids: seq<string>)
    requires Distinct(ids) && forall id :: id in ids <==> id in available
    ensures (forall k: nat | k < |ids| :: FitsAt(NamesOf(available), created, ids, k)) <==> forall id | id in available :: !IsKey(created, id)
  {
    if forall id | id in available :: !IsKey(created, id) {
      forall k: nat | k < |ids| ensures FitsAt(NamesOf(available), created, ids, k) {
        assert forall j | 0 <= j <= k :: ids[j] in ids;
      }
    }
    if forall k: nat | k < |ids| :: FitsAt(NamesOf(available), created, ids, k) {
      NoKeys(available, created, ids, |ids|);
      forall id | id in available ensures !IsKey(created, id) {
        assert id in ids;
      }
    }
  }

  lemma {:induction false} NoKeys(available: map<string, Section>, created: map<string, string>, ids: seq<string>, n: nat)
    requires Distinct(ids) && (forall id | id in ids :: id in available) && n <= |ids|
    requires forall k: nat | k < |ids| :: FitsAt(NamesOf(available), created, ids, k)
    ensures forall k | 0 <= k < n :: !IsKey(created, ids[k])
  {
    if n > 0 {
      NoKeys(available, created, ids, n - 1);
      assert FitsAt(NamesOf(available), created, ids, n - 1);
      assert ids[n - 1] in ids;
      forall j | 0 <= j < n - 1 ensures Target(created, ids[j]) == ids[j] {
      }
    }
  }

  lemma RetainedNames(sections: seq<Section>, deleteIds: seq<string>)
    requires Distinct(SectionIds(sections))
    ensures Delete(Available(sections, |sections|), deleteIds, |deleteIds|).Some? <==> DeletesFit(sections, deleteIds)
    ensures Delete(Available(sections, |sections|), deleteIds, |deleteIds|).Some? ==> forall id :: id in Delete(Available(sections, |sections|), deleteIds, |deleteIds|).value <==> IsKept(sections, deleteIds, id)
  {
    hide Available, Delete, Distinct, SectionIds;
    var all := Available(sections, |sections|);
    forall id ensures id in all <==> HasId(sections, id) {
      NamedIsThere(sections, id);
    }
    DeleteExactly(all, deleteIds, |deleteIds|);
    DistinctMeans(deleteIds);
  }

  lemma DistinctMeans(ids: seq<string>)
    ensures Distinct(ids) <==> forall i, j | 0 <= i < j < |ids| :: ids[i] != ids[j]
  {
  }

  lemma NamedIsThere(sections: seq<Section>, id: string)
    requires Distinct(SectionIds(sections))
    ensures id in Available(sections, |sections|) <==> HasId(sections, id)
  {
    hide Available, Distinct, SectionIds;
    KeyedAre(sections);
  }

  lemma RemainingNames(sections: seq<Section>, available: map<string, Section>)
    requires Distinct(SectionIds(sections)) && forall id | id in available :: HasId(sections, id)
    ensures var ids := Remaining(sections, available, |sections|); Distinct(ids) && |ids| == |available| && forall id :: id in ids <==> id in available
  {
    hide Remaining, RemainingAt, Distinct, SectionIds;
    var ids := Remaining(sections, available, |sections|);
    RemainingDistinct(sections, available);
    RemainingAre(sections, available, |sections|);
    forall id ensures id in ids <==> id in available {
      RemainingHas(sections, available, |sections|, id);
    }
    NamesAll(available.Keys, ids);
    assert |available.Keys| == |available|;
  }

  lemma {:induction false} RemainingHas(sections: seq<Section>, available: map<string, Section>, n: nat, id: string)
    requires n <= |sections|
    ensures id in Remaining(sections, available, n) <==> id in available && exists k :: 0 <= k < n && sections[k].id == id
  {
    if n > 0 {
      RemainingHas(sections, available, n - 1, id);
    }
  }

  /** A structural edit happens exactly when nothing was refused before, its deletions are chapters, and its
      order names every kept chapter once. */
  lemma RestructureExactly(d: Draft, deleteIds: seq<string>, order: seq<string>)
    requires Distinct(SectionIds(d.article.sections))
    ensures Restructure(d, deleteIds, order).Prepared? <==> d.receipt.rejected == [] && DeletesFit(d.article.sections, deleteIds) && OrderFits(d.article.sections, deleteIds, d.receipt.created, order)
  {
    hide Available, Delete, Place, Remaining, Distinct, SectionIds, FitsAt, IsKept, DeletesFit, Target, IsKey;
    var sections, created := d.article.sections, d.receipt.created;
    RetainedNames(sections, deleteIds);
    var left := Delete(Available(sections, |sections|), deleteIds, |deleteIds|);
    if left.Some? {
      var available := left.value;
      assert NamesOf(available) == Kept(sections, deleteIds);
      if order == [] {
        forall id | id in available ensures HasId(sections, id) {
          KeptIsThere(sections, deleteIds, id);
        }
        RemainingNames(sections, available);
        var ids := Remaining(sections, available, |sections|);
        PlainOrderExactly(available, created, ids);
        PlaceExactly(available, created, ids, |ids|);
      } else {
        OrderExactly(available, created, order);
      }
    }
  }

  lemma KeptIsThere(sections: seq<Section>, deleteIds: seq<string>, id: string)
    requires IsKept(sections, deleteIds, id)
    ensures HasId(sections, id)
  {
  }

  // ----- limitations and citations that are used

  lemma {:induction false} RelevantExactly(ls: seq<Limitation>, ids: seq<string>, n: nat, l: Limitation)
    requires n <= |ls|
    ensures l in Relevant(ls, ids, n) <==> l in ls[..n] && (l.sectionIds == [] || exists id | id in l.sectionIds :: id in ids)
  {
    if n > 0 {
      RelevantExactly(ls, ids, n - 1, l);
      TakeOneMore(ls, n);
    }
  }

  /** A block or a limitation refers to the citation. */
  ghost predicate IsUsed(a: Article, id: string) {
    (exists t, b :: t in a.sections && b in t.blocks && id in BlockCitations(b)) || exists l :: l in a.limitations && id in l.citationIds
  }

  ghost predicate Concerns(l: Limitation, sections: seq<Section>) {
    l.sectionIds == [] || exists id | id in l.sectionIds :: HasId(sections, id)
  }

  lemma IdsAre(sections: seq<Section>, id: string)
    ensures id in SectionIds(sections) <==> HasId(sections, id)
  {
    var ids := SectionIds(sections);
    if HasId(sections, id) {
      var k :| 0 <= k < |sections| && sections[k].id == id;
      assert ids[k] == id;
    }
    if id in ids {
      var k :| 0 <= k < |ids| && ids[k] == id;
      assert sections[k].id == id;
    }
  }

  /** Pruning leaves the limitations that concern a chapter and the citations that are used. */
  lemma PruneExactly(a: Article)
    ensures var a' := Prune(a); a'.title == a.title && a'.sections == a.sections && (forall l :: l in a'.limitations <==> l in a.limitations && Concerns(l, a.sections))
    ensures var a' := Prune(a); (a'.quality == Standard <==> a'.limitations == []) && forall id :: (id in a'.citations <==> id in a.citations && IsUsed(a', id)) && (id in a'.citations ==> a'.citations[id] == a.citations[id])
  {
    hide Relevant, Refs, BlockCitations;
    var ids, a' := SectionIds(a.sections), Prune(a);
    assert a.limitations[..|a.limitations|] == a.limitations;
    forall id ensures id in ids <==> HasId(a.sections, id) {
      IdsAre(a.sections, id);
    }
    forall l ensures l in a'.limitations <==> l in a.limitations && Concerns(l, a.sections) {
      RelevantExactly(a.limitations, ids, |a.limitations|, l);
    }
    forall id ensures id in Refs(a.sections, a'.limitations) <==> IsUsed(a', id) {
      RefsAre(a.sections, a'.limitations, id);
    }
  }

  // ----- the whole request

  /** What an entry calls its chapter. */
  function NameOf(s: AuthorSection): string {
    if s.sectionId != "" then s.sectionId else "key:" + s.key
  }

  /** An entry with two names, or the second entry with one name. */
  ghost predicate IsUnclear(ss: seq<AuthorSection>, i: nat)
    requires i < |ss|
  {
    && NameOf(ss[i]) != "key:"
    && ((ss[i].sectionId != "" && ss[i].key != "") || exists j :: 0 <= j < i && NameOf(ss[j]) == NameOf(ss[i]))
  }

  lemma {:induction false} IdentitiesAre(ss: seq<AuthorSection>, n: nat, name: string)
    requires n <= |ss|
    ensures name in Identities(ss, n) <==> name != "key:" && exists j :: 0 <= j < n && NameOf(ss[j]) == name
  {
    if n > 0 {
      IdentitiesAre(ss, n - 1, name);
    }
  }

  lemma AmbiguousNext(ss: seq<AuthorSection>, n: nat)
    requires 0 < n <= |ss|
    ensures Ambiguous(ss, n) <==> Ambiguous(ss, n - 1) || IsUnclear(ss, n - 1)
  {
    hide Identities;
    IdentitiesAre(ss, n - 1, NameOf(ss[n - 1]));
    assert NameOf(ss[n - 1]) == Identity(ss[n - 1]);
  }

  lemma {:induction false} AmbiguousExactly(ss: seq<AuthorSection>, n: nat)
    requires n <= |ss|
    ensures Ambiguous(ss, n) <==> exists i: nat :: i < n && IsUnclear(ss, i)
  {
    hide IsUnclear;
    if n > 0 {
      AmbiguousExactly(ss, n - 1);
      AmbiguousNext(ss, n);
    }
  }

  ghost predicate IsAdmitted(rules: Rules, input: SaveInput) {
    && |input.sections| <= MAX_SECTIONS && rules.fits(input) && !input.mindMap && (forall i: nat | i < |input.sections| :: !IsUnclear(input.sections, i))
    && forall s | s in input.sections && s.sectionId != "" :: s.sectionId !in input.deleteIds
  }

  predicate TitleIsRefused(input: SaveInput) {
    input.title.Some? && Blank(input.title.value)
  }

  ghost predicate AllTaken(rules: Rules, d: Draft, input: SaveInput) {
    forall i: nat | i < |input.sections| :: IsTaken(rules, d.article, input.sections, i)
  }

  /** The name that an order gives a chapter: its creation key in this request, or its identity. */
  ghost function Resolved(rules: Rules, d: Draft, input: SaveInput, name: string): string {
    if exists i: nat :: i < |input.sections| && Creates(rules, d.article, input.sections, i, name) then NewId(rules, name) else name
  }

  /** The draft after the entries and the title. */
  ghost predicate IsWritten(rules: Rules, d: Draft, input: SaveInput, x: Draft, made: seq<nat>, taken: seq<nat>, refused: seq<nat>) {
    exists y: Draft ::
      DraftIs(rules, d, input.sections, |input.sections|, y, made, taken, refused)
      && x == y.(article := y.article.(title := x.article.title), receipt := y.receipt.(rejected := x.receipt.rejected))
      && x.article.title == (if input.title.Some? && !TitleIsRefused(input) then input.title.value else d.article.title)
      && x.receipt.rejected == y.receipt.rejected + if TitleIsRefused(input) then [OfTitle(EmptyTitle)] else []
  }

  lemma WrittenExactly(rules: Rules, d: Draft, input: SaveInput) returns (made: seq<nat>, taken: seq<nat>, refused: seq<nat>)
    requires Distinct(SectionIds(d.article.sections))
    ensures IsWritten(rules, d, input, Written(rules, d, input), made, taken, refused) && Distinct(SectionIds(Written(rules, d, input).article.sections))
    ensures Written(rules, d, input).receipt.rejected == [] <==> AllTaken(rules, d, input) && !TitleIsRefused(input)
  {
    hide Catalog, ApplyAll, SectionsAre, PlacesAre, LimitationsAre, CitationsAre, NotesAre, IsTaken, CreatedAre, AcceptedAre, Distinct, SectionIds, Blank, Ascending;
    var d0 := d.(receipt := NO_RECEIPT);
    made, taken, refused := ApplyAllIs(rules, d0, input.sections, |input.sections|);
    var y := ApplyAll(rules, Catalog(rules.world), d0, input.sections, |input.sections|);
    SameDraft(rules, d0, d, input.sections, y, made, taken, refused);
    if y.receipt.rejected == [] {
      forall i: nat | i < |input.sections| ensures IsTaken(rules, d.article, input.sections, i) {
        assert i !in refused;
      }
    } else {
      assert refused[0] in refused;
    }
  }

  lemma SameDraft(rules: Rules, d0: Draft, d: Draft, ss: seq<AuthorSection>, y: Draft, made: seq<nat>, taken: seq<nat>, refused: seq<nat>)
    requires DraftIs(rules, d0, ss, |ss|, y, made, taken, refused) && d.article == d0.article && d.notes == d0.notes
    ensures DraftIs(rules, d, ss, |ss|, y, made, taken, refused)
  {
    hide SectionsAre, PlacesAre, LimitationsAre, CitationsAre, ReceiptIs, LastNotes, NotesAt, MadeFrom;
    forall f | NoteIs(rules, d0, ss, |ss|, y.notes, f) ensures NoteIs(rules, d, ss, |ss|, y.notes, f) {
    }
  }

  // ----- the structural part, in terms of the request

  ghost predicate IsNamed(rules: Rules, d: Draft, input: SaveInput, name: string) {
    exists i: nat :: i < |input.sections| && Creates(rules, d.article, input.sections, i, name)
  }

  /** The chapter is there after the entries, and not to be deleted. */
  ghost predicate Remains(rules: Rules, d: Draft, input: SaveInput, id: string) {
    IsThere(rules, d.article, input.sections, |input.sections|, id) && id !in input.deleteIds
  }

  ghost predicate DeletionsAreGood(rules: Rules, d: Draft, input: SaveInput) {
    Distinct(input.deleteIds) && forall id | id in input.deleteIds :: IsThere(rules, d.article, input.sections, |input.sections|, id)
  }

  ghost predicate PlaceIsGood(rules: Rules, d: Draft, input: SaveInput, k: nat)
    requires k < |input.order|
  {
    var id := Resolved(rules, d, input, input.order[k]);
    && Remains(rules, d, input, id) && (forall j | 0 <= j < k :: Resolved(rules, d, input, input.order[j]) != id)
    && (IsNamed(rules, d, input, input.order[k]) && Remains(rules, d, input, input.order[k]) ==> exists j :: 0 <= j < k && Resolved(rules, d, input, input.order[j]) == input.order[k])
  }

  ghost predicate OrderIsGood(rules: Rules, d: Draft, input: SaveInput) {
    if input.order == [] then forall id | Remains(rules, d, input, id) :: !IsNamed(rules, d, input, id)
    else
      && (forall k: nat | k < |input.order| :: PlaceIsGood(rules, d, input, k))
      && forall id | Remains(rules, d, input, id) :: exists k :: 0 <= k < |input.order| && Resolved(rules, d, input, input.order[k]) == id
  }

  ghost predicate StructureIsGood(rules: Rules, d: Draft, input: SaveInput) {
    AllTaken(rules, d, input) && !TitleIsRefused(input) && DeletionsAreGood(rules, d, input) && OrderIsGood(rules, d, input)
  }

  lemma KeyNames(rules: Rules, d: Draft, input: SaveInput, created: map<string, string>, name: string)
    requires CreatedAre(rules, d.article, input.sections, |input.sections|, created)
    ensures IsKey(created, name) <==> IsNamed(rules, d, input, name)
    ensures Target(created, name) == Resolved(rules, d, input, name)
  {
    hide IsTaken;
    if name in created {
      var i: nat :| i < |input.sections| && Creates(rules, d.article, input.sections, i, name);
      assert created[name] == NewId(rules, name);
      assert NewId(rules, name)[0] == 's';
    }
  }

  lemma StructureExactly(rules: Rules, d: Draft, input: SaveInput, w: Draft)
    requires (forall id :: HasId(w.article.sections, id) <==> IsThere(rules, d.article, input.sections, |input.sections|, id))
    requires CreatedAre(rules, d.article, input.sections, |input.sections|, w.receipt.created) && (w.receipt.rejected == [] <==> AllTaken(rules, d, input) && !TitleIsRefused(input))
    requires Distinct(SectionIds(w.article.sections))
    ensures Restructure(w, input.deleteIds, input.order).Prepared? <==> StructureIsGood(rules, d, input)
  {
    hide Restructure, IsThere, AllTaken, TitleIsRefused, CreatedAre, IsKey, Target, Resolved, IsNamed, Distinct, SectionIds, HasId;
    RestructureExactly(w, input.deleteIds, input.order);
    var created := w.receipt.created;
    forall name ensures (IsKey(created, name) <==> IsNamed(rules, d, input, name)) && Target(created, name) == Resolved(rules, d, input, name) {
      KeyNames(rules, d, input, created, name);
    }
    forall id ensures IsKept(w.article.sections, input.deleteIds, id) <==> Remains(rules, d, input, id) {
    }
    forall k: nat | k < |input.order| ensures FitsAt(Kept(w.article.sections, input.deleteIds), created, input.order, k) <==> PlaceIsGood(rules, d, input, k) {
    }
  }

  // ----- the saved draft

  /** The chapters, their order, and what goes with them. */
  ghost predicate IsArranged(rules: Rules, d: Draft, input: SaveInput, w: Draft, x: Draft) {
    && x.article.title == w.article.title && x.notes == w.notes && x.receipt.created == w.receipt.created
    && Distinct(SectionIds(x.article.sections)) && (forall t :: t in x.article.sections <==> t in w.article.sections && t.id !in input.deleteIds)
    && (if input.order == [] then InOldOrder(w.article.sections, x.article.sections)
        else |x.article.sections| == |input.order| && forall k | 0 <= k < |input.order| :: x.article.sections[k].id == Resolved(rules, d, input, input.order[k]))
    && (if Structural(input) then x.receipt.rejected == [] && x.receipt.accepted == (if input.order == [] then SectionIds(x.article.sections) else input.order) else x.receipt == w.receipt)
    && (forall l :: l in x.article.limitations <==> l in w.article.limitations && Concerns(l, x.article.sections))
    && (x.article.quality == Standard <==> x.article.limitations == [])
    && forall id :: (id in x.article.citations <==> id in w.article.citations && IsUsed(x.article, id)) && (id in x.article.citations ==> x.article.citations[id] == w.article.citations[id])
  }

  ghost predicate IsSaved(rules: Rules, d: Draft, input: SaveInput, x: Draft) {
    exists w, made, taken, refused :: IsWritten(rules, d, input, w, made, taken, refused) && IsArranged(rules, d, input, w, x)
  }

  lemma SameOrder(sections: seq<Section>)
    requires Distinct(SectionIds(sections))
    ensures InOldOrder(sections, sections)
  {
    forall p, i | 0 <= p < |sections| && 0 <= i < |sections| && sections[i] == sections[p] ensures i == p {
      OneWithId(sections, i, p);
    }
  }

  lemma RestructureAccepts(w: Draft, deleteIds: seq<string>)
    requires Distinct(SectionIds(w.article.sections)) && Restructure(w, deleteIds, []).Prepared?
    ensures var x := Restructure(w, deleteIds, []).draft; x.receipt.accepted == SectionIds(x.article.sections)
  {
    hide Available, Delete, Place, Remaining, Distinct, SectionIds, KeyedById;
    var sections := w.article.sections;
    var available := Delete(Available(sections, |sections|), deleteIds, |deleteIds|).value;
    RetainedAre(sections, deleteIds, available);
    RemainingAre(sections, available, |sections|);
    RemainingDistinct(sections, available);
    var complete := Remaining(sections, available, |sections|);
    PlacedAsNamed(available, w.receipt.created, complete, |complete|);
    IdsFrom(Place(available, w.receipt.created, complete, |complete|).sections, complete);
  }

  lemma IdsFrom(sections: seq<Section>, ids: seq<string>)
    requires |sections| == |ids| && forall k | 0 <= k < |ids| :: sections[k].id == ids[k]
    ensures SectionIds(sections) == ids
  {
  }

  lemma RestructureReceipt(w: Draft, deleteIds: seq<string>, order: seq<string>)
    requires Restructure(w, deleteIds, order).Prepared?
    ensures Restructure(w, deleteIds, order).draft.receipt.created == w.receipt.created
    ensures order != [] ==> Restructure(w, deleteIds, order).draft.receipt.accepted == order
  {
    hide Available, Delete, Place, Remaining;
  }

  lemma StructuredIsArranged(rules: Rules, d: Draft, input: SaveInput, w: Draft)
    requires Distinct(SectionIds(w.article.sections)) && CreatedAre(rules, d.article, input.sections, |input.sections|, w.receipt.created)
    requires Structural(input) && Restructure(w, input.deleteIds, input.order).Prepared?
    ensures var p := Restructure(w, input.deleteIds, input.order).draft; IsArranged(rules, d, input, w, p.(article := Prune(p.article)))
  {
    hide Restructure, Prune, Distinct, SectionIds, CreatedAre, InOldOrder, Resolved, Target, Concerns, IsUsed;
    var p := Restructure(w, input.deleteIds, input.order).draft;
    RestructurePermutes(w, input.deleteIds, input.order);
    RestructureReceipt(w, input.deleteIds, input.order);
    PruneExactly(p.article);
    if input.order == [] {
      RestructureKeepsOrder(w, input.deleteIds);
      RestructureAccepts(w, input.deleteIds);
    } else {
      forall k: nat | k < |input.order| ensures p.article.sections[k].id == Resolved(rules, d, input, input.order[k]) {
        KeyNames(rules, d, input, w.receipt.created, input.order[k]);
      }
    }
  }

  lemma PlainIsArranged(rules: Rules, d: Draft, input: SaveInput, w: Draft)
    requires Distinct(SectionIds(w.article.sections)) && !Structural(input)
    ensures IsArranged(rules, d, input, w, w.(article := Prune(w.article)))
  {
    hide Prune, Distinct, SectionIds, InOldOrder, Resolved, Concerns, IsUsed;
    PruneExactly(w.article);
    SameOrder(w.article.sections);
  }

  /** The draft that is saved if it is not too large. */
  ghost predicate IsOutcome(rules: Rules, d: Draft, input: SaveInput, out: Outcome) {
    match out
    case Prepared(x) => IsSaved(rules, d, input, x) && |x.article.sections| <= MAX_SECTIONS && rules.retains(x)
    case Refused(problem) =>
      && (problem == TooManySections || problem == DraftTooLarge)
      && exists x :: IsSaved(rules, d, input, x) && if problem == TooManySections then |x.article.sections| > MAX_SECTIONS else |x.article.sections| <= MAX_SECTIONS && !rules.retains(x)
  }

  lemma FinishIs(rules: Rules, d: Draft, input: SaveInput, p: Draft)
    requires IsSaved(rules, d, input, p.(article := Prune(p.article)))
    ensures IsOutcome(rules, d, input, Finish(rules, p))
  {
    hide IsSaved, Prune;
    PruneKeepsSections(p.article);
  }

  /** MAIN RESULT: a request is refused exactly for the faults that can be seen in it and in the draft, or
      because the draft would become too large; otherwise this draft is saved. */
  lemma EditExactly(rules: Rules, d: Draft, input: SaveInput)
    requires Distinct(SectionIds(d.article.sections))
    ensures var good := IsAdmitted(rules, input) && (Structural(input) ==> StructureIsGood(rules, d, input));
      if good then IsOutcome(rules, d, input, Edit(rules, d, input)) else Edit(rules, d, input).Refused? && Edit(rules, d, input).problem != TooManySections && Edit(rules, d, input).problem != DraftTooLarge
  {
    hide Written, Restructure, Finish, Prune, Ambiguous, Distinct, SectionIds, IsUnclear, IsOutcome, StructureIsGood, IsWritten, IsArranged;
    AmbiguousExactly(input.sections, |input.sections|);
    var made, taken, refused := WrittenExactly(rules, d, input);
    var w := Written(rules, d, input);
    WrittenHas(rules, d, input, w, made, taken, refused);
    if Structural(input) {
      StructureExactly(rules, d, input, w);
      RestructureProblems(w, input.deleteIds, input.order);
      if Restructure(w, input.deleteIds, input.order).Prepared? {
        StructuredIsArranged(rules, d, input, w);
        FinishIs(rules, d, input, Restructure(w, input.deleteIds, input.order).draft);
      }
    } else {
      PlainIsArranged(rules, d, input, w);
      FinishIs(rules, d, input, w);
    }
  }

  lemma WrittenHas(rules: Rules, d: Draft, input: SaveInput, w: Draft, made: seq<nat>, taken: seq<nat>, refused: seq<nat>)
    requires IsWritten(rules, d, input, w, made, taken, refused)
    ensures forall id :: HasId(w.article.sections, id) <==> IsThere(rules, d.article, input.sections, |input.sections|, id)
    ensures CreatedAre(rules, d.article, input.sections, |input.sections|, w.receipt.created)
  {
    hide PlacesAre, LimitationsAre, CitationsAre, NotesAre, CreatedAre, TakenAt, RefusedAt, IsLastFor, IsReplaced, IsThere, HasId, Blank;
  }

  lemma RestructureProblems(w: Draft, deleteIds: seq<string>, order: seq<string>)
    ensures Restructure(w, deleteIds, order).Refused? ==> Restructure(w, deleteIds, order).problem != TooManySections && Restructure(w, deleteIds, order).problem != DraftTooLarge
  {
    hide Available, Delete, Remaining;
    MisplacedProblems(w, deleteIds, order);
  }

  lemma MisplacedProblems(w: Draft, deleteIds: seq<string>, order: seq<string>)
    ensures forall m, c: map<string, string>, o: seq<string> | Place(m, c, o, |o|).Misplaced? :: var p := Place(m, c, o, |o|).problem; p == AmbiguousKey || p == UnknownInOrder
  {
    forall m, c: map<string, string>, o: seq<string> | Place(m, c, o, |o|).Misplaced? ensures var p := Place(m, c, o, |o|).problem; p == AmbiguousKey || p == UnknownInOrder {
      MisplacedWhy(m, c, o, |o|);
    }
  }

  lemma {:induction false} MisplacedWhy(m: map<string, Section>, c: map<string, string>, o: seq<string>, n: nat)
    requires n <= |o| && Place(m, c, o, n).Misplaced?
    ensures var p := Place(m, c, o, n).problem; p == AmbiguousKey || p == UnknownInOrder
  {
    if n > 0 && Place(m, c, o, n - 1).Misplaced? {
      MisplacedWhy(m, c, o, n - 1);
    }
  }
}
