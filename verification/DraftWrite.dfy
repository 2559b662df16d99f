/** Saving chapters into a draft (internal/investigator/article_loop_wire.go, `saveLoopSections`):
    every entry of a batch is accepted or rejected alone, a structural edit happens as a whole or not
    at all, and the draft keeps exactly the citations that it uses. */
module DraftWrite {
  import opened Lists
  import opened Text
  import opened Wrappers
  import opened ArticleBlocks
  import opened AuthorLanguage
  import opened AuthorCompiler

  datatype SaveInput = SaveInput(
    finish: bool, expected: nat, title: Option<string>, sections: seq<AuthorSection>, deleteIds: seq<string>, order: seq<string>,
    mindMap: bool)

  /** A refused part: an entry of the batch, or the title. */
  datatype Rejection = OfSection(index: nat, reason: Reason) | OfTitle(reason: Reason)
  datatype Receipt = Receipt(accepted: seq<string>, created: map<string, string>, rejected: seq<Rejection>)
  datatype Draft = Draft(article: Article, notes: map<string, Note>, receipt: Receipt)

  /** What the write depends on: what has been delivered, the identity of a new chapter by its creation
      key, the check of blocks and citations, and the size limits of a request and of a draft. */
  datatype Rules = Rules(
    world: World, keyHash: string -> string, acceptable: (Section, map<string, Citation>) -> bool, fits: SaveInput -> bool,
    retains: Draft -> bool)

  datatype Problem =
    | TooLarge | MindMapUnavailable | AmbiguousIdentity | DeletedAndReplaced | PartRejected | UnknownDelete | IncompleteOrder
    | AmbiguousKey | UnknownInOrder | TooManySections | DraftTooLarge

  datatype Outcome = Refused(problem: Problem) | Prepared(draft: Draft)

  const MAX_SECTIONS := 40

  // ----- identities

  function NewId(rules: Rules, key: string): string {
    "s_" + rules.keyHash(key)
  }

  function Identity(s: AuthorSection): string {
    if s.sectionId == "" then "key:" + s.key else s.sectionId
  }

  function Identities(sections: seq<AuthorSection>, n: nat): set<string>
    requires n <= |sections|
  {
    if n == 0 then {} else if Identity(sections[n - 1]) == "key:" then Identities(sections, n - 1)
    else Identities(sections, n - 1) + {Identity(sections[n - 1])}
  }

  predicate Ambiguous(sections: seq<AuthorSection>, n: nat)
    requires n <= |sections|
  {
    n > 0 && (
      || Ambiguous(sections, n - 1)
      || (Identity(sections[n - 1]) != "key:"
          && (Identity(sections[n - 1]) in Identities(sections, n - 1) || (sections[n - 1].sectionId != "" && sections[n - 1].key != ""))))
  }

  function SectionIds(sections: seq<Section>): (ids: seq<string>)
    ensures |ids| == |sections|
  {
    seq(|sections|, k requires 0 <= k < |sections| => sections[k].id)
  }

  /** The last section with an identity; -1 when there is none. */
  function IndexOf(sections: seq<Section>, id: string): (at: int)
    ensures -1 <= at < |sections|
    ensures at >= 0 ==> sections[at].id == id
    ensures at < 0 ==> forall s | s in sections :: s.id != id
  {
    if sections == [] then -1
    else if sections[|sections| - 1].id == id then |sections| - 1
    else IndexOf(sections[..|sections| - 1], id)
  }

  // ----- one entry of the batch

  /** Limitations that do not concern a section. */
  function Unscoped(ls: seq<Limitation>, id: string, n: nat): seq<Limitation>
    requires n <= |ls|
  {
    if n == 0 then []
    else if id in ls[n - 1].sectionIds then Unscoped(ls, id, n - 1)
    else Unscoped(ls, id, n - 1) + [ls[n - 1]]
  }

  function Put(sections: seq<Section>, at: int, s: Section): seq<Section>
    requires at < |sections|
  {
    if at >= 0 then sections[at := s] else sections + [s]
  }

  /** A compiled section takes its place in the article. */
  function Install(a: Article, at: int, c: Compiled): Article
    requires at < |a.sections|
  {
    a.(sections := Put(a.sections, at, c.section),
       limitations := Unscoped(a.limitations, c.section.id, |a.limitations|) + c.limitations,
       citations := a.citations + c.citations)
  }

  /** Where an entry goes and what it compiles to. */
  datatype Entry = Entry(id: string, at: int, compiled: Compiled)

  function Examine(rules: Rules, cat: map<string, Citation>, a: Article, s: AuthorSection): (r: Result<Entry>)
    ensures r.Ok? ==> r.value.at < |a.sections| && r.value.compiled.section.id == r.value.id
    ensures r.Ok? && r.value.at >= 0 ==> a.sections[r.value.at].id == r.value.id
    ensures r.Ok? && r.value.at < 0 ==> forall s | s in a.sections :: s.id != r.value.id
  {
    if s.rejected != "" then Fail(Malformed(s.rejected))
    else if s.sectionId == "" && s.key == "" then Fail(NoIdentity)
    else
      var id := if s.sectionId == "" then NewId(rules, s.key) else s.sectionId;
      var at := IndexOf(a.sections, id);
      if s.sectionId != "" && at < 0 then Fail(UnknownSection)
      else if s.sectionId == "" && at >= 0 then Fail(KeyTaken)
      else
        match CompileSection(rules.world, cat, s, id)
        case Fail(reason) => Fail(reason)
        case Ok(compiled) =>
          if rules.acceptable(compiled.section, compiled.citations) then Ok(Entry(id, at, compiled)) else Fail(InvalidBlocks)
  }

  function Apply(rules: Rules, cat: map<string, Citation>, d: Draft, index: nat, s: AuthorSection): Draft {
    match Examine(rules, cat, d.article, s)
    case Fail(reason) => d.(receipt := d.receipt.(rejected := d.receipt.rejected + [OfSection(index, reason)]))
    case Ok(e) =>
      Draft(Install(d.article, e.at, e.compiled), d.notes + e.compiled.notes,
            d.receipt.(accepted := d.receipt.accepted + [e.id],
                       created := if e.at < 0 then d.receipt.created[s.key := e.id] else d.receipt.created))
  }

  function ApplyAll(rules: Rules, cat: map<string, Citation>, d: Draft, sections: seq<AuthorSection>, n: nat): Draft
    requires n <= |sections|
  {
    if n == 0 then d else Apply(rules, cat, ApplyAll(rules, cat, d, sections, n - 1), n - 1, sections[n - 1])
  }

  function Retitle(d: Draft, title: Option<string>): Draft {
    match title
    case None => d
    case Some(t) =>
      if Blank(t) then d.(receipt := d.receipt.(rejected := d.receipt.rejected + [OfTitle(EmptyTitle)]))
      else d.(article := d.article.(title := t))
  }

  // ----- structure

  function Available(sections: seq<Section>, n: nat): map<string, Section>
    requires n <= |sections|
  {
    if n == 0 then map[] else Available(sections, n - 1)[sections[n - 1].id := sections[n - 1]]
  }

  function Delete(available: map<string, Section>, ids: seq<string>, n: nat): Option<map<string, Section>>
    requires n <= |ids|
  {
    if n == 0 then Some(available)
    else
      var front := Delete(available, ids, n - 1);
      if front.None? || ids[n - 1] !in front.value then None else Some(front.value - {ids[n - 1]})
  }

  function Remaining(sections: seq<Section>, available: map<string, Section>, n: nat): seq<string>
    requires n <= |sections|
  {
    if n == 0 then []
    else if sections[n - 1].id in available then Remaining(sections, available, n - 1) + [sections[n - 1].id]
    else Remaining(sections, available, n - 1)
  }

  datatype Placing = Placed(sections: seq<Section>, left: map<string, Section>) | Misplaced(problem: Problem)

  /** A creation key in the order stands for the chapter created under it. */
  function Place(available: map<string, Section>, created: map<string, string>, order: seq<string>, n: nat): Placing
    requires n <= |order|
  {
    if n == 0 then Placed([], available)
    else
      match Place(available, created, order, n - 1)
      case Misplaced(problem) => Misplaced(problem)
      case Placed(sections, left) =>
        var key := order[n - 1];
        var isKey := key in created && created[key] != "";
        if isKey && key in left then Misplaced(AmbiguousKey)
        else
          var id := if isKey then created[key] else key;
          if id !in left then Misplaced(UnknownInOrder) else Placed(sections + [left[id]], left - {id})
  }

  predicate Structural(input: SaveInput) {
    input.deleteIds != [] || input.order != []
  }

  function Restructure(d: Draft, deleteIds: seq<string>, order: seq<string>): Outcome {
    if d.receipt.rejected != [] then Refused(PartRejected)
    else
      match Delete(Available(d.article.sections, |d.article.sections|), deleteIds, |deleteIds|)
      case None => Refused(UnknownDelete)
      case Some(available) =>
        var complete := if order == [] then Remaining(d.article.sections, available, |d.article.sections|) else order;
        if |complete| != |available| then Refused(IncompleteOrder)
        else
          match Place(available, d.receipt.created, complete, |complete|)
          case Misplaced(problem) => Refused(problem)
          case Placed(sections, _) =>
            Prepared(d.(article := d.article.(sections := sections), receipt := d.receipt.(accepted := complete)))
  }

  // ----- what the draft keeps

  function BlockRefs(bs: seq<Block>, n: nat): set<string>
    requires n <= |bs|
  {
    if n == 0 then {} else BlockRefs(bs, n - 1) + Elements(BlockCitations(bs[n - 1]))
  }

  function SectionRefs(sections: seq<Section>, n: nat): set<string>
    requires n <= |sections|
  {
    if n == 0 then {} else SectionRefs(sections, n - 1) + BlockRefs(sections[n - 1].blocks, |sections[n - 1].blocks|)
  }

  function LimitationRefs(ls: seq<Limitation>, n: nat): set<string>
    requires n <= |ls|
  {
    if n == 0 then {} else LimitationRefs(ls, n - 1) + Elements(ls[n - 1].citationIds)
  }

  predicate Concerned(l: Limitation, ids: seq<string>) {
    l.sectionIds == [] || exists id | id in l.sectionIds :: id in ids
  }

  function Relevant(ls: seq<Limitation>, ids: seq<string>, n: nat): seq<Limitation>
    requires n <= |ls|
  {
    if n == 0 then []
    else if Concerned(ls[n - 1], ids) then Relevant(ls, ids, n - 1) + [ls[n - 1]]
    else Relevant(ls, ids, n - 1)
  }

  /** The references of all blocks and limitations. */
  function Refs(sections: seq<Section>, ls: seq<Limitation>): set<string> {
    SectionRefs(sections, |sections|) + LimitationRefs(ls, |ls|)
  }

  function Prune(a: Article): Article {
    var ls := Relevant(a.limitations, SectionIds(a.sections), |a.limitations|);
    var used := Refs(a.sections, ls);
    a.(limitations := ls, quality := if ls == [] then Standard else WithLimitations,
       citations := map id | id in a.citations && id in used :: a.citations[id])
  }

  // ----- the whole edit

  const NO_RECEIPT := Receipt([], map[], [])

  /** The draft after all entries and the title. */
  function Written(rules: Rules, d: Draft, input: SaveInput): Draft {
    Retitle(ApplyAll(rules, Catalog(rules.world), d.(receipt := NO_RECEIPT), input.sections, |input.sections|), input.title)
  }

  function Finish(rules: Rules, d: Draft): Outcome {
    if |d.article.sections| > MAX_SECTIONS then Refused(TooManySections)
    else
      var pruned := d.(article := Prune(d.article));
      if rules.retains(pruned) then Prepared(pruned) else Refused(DraftTooLarge)
  }

  /** The draft that a request leads to. */
  function Edit(rules: Rules, d: Draft, input: SaveInput): Outcome {
    if |input.sections| > MAX_SECTIONS || !rules.fits(input) then Refused(TooLarge)
    else if input.mindMap then Refused(MindMapUnavailable)
    else if Ambiguous(input.sections, |input.sections|) then Refused(AmbiguousIdentity)
    else if exists s | s in input.sections :: s.sectionId != "" && s.sectionId in input.deleteIds then Refused(DeletedAndReplaced)
    else
      var written := Written(rules, d, input);
      var structured := if Structural(input) then Restructure(written, input.deleteIds, input.order) else Prepared(written);
      match structured
      case Refused(problem) => Refused(problem)
      case Prepared(placed) => Finish(rules, placed)
  }

  // ----- the edit as it is performed

  lemma {:induction false} DeleteFails(available: map<string, Section>, ids: seq<string>, n: nat, end: nat)
    requires n <= end <= |ids| && Delete(available, ids, n).None?
    ensures Delete(available, ids, end).None?
  {
    if n < end {
      DeleteFails(available, ids, n, end - 1);
    }
  }

  lemma {:induction false} PlaceFails(available: map<string, Section>, created: map<string, string>, order: seq<string>, n: nat, end: nat)
    requires n <= end <= |order| && Place(available, created, order, n).Misplaced?
    ensures Place(available, created, order, end) == Place(available, created, order, n)
  {
    if n < end {
      PlaceFails(available, created, order, n, end - 1);
    }
  }

  lemma {:induction false} AmbiguousStays(sections: seq<AuthorSection>, n: nat, end: nat)
    requires n <= end <= |sections| && Ambiguous(sections, n)
    ensures Ambiguous(sections, end)
  {
    if n < end {
      AmbiguousStays(sections, n, end - 1);
    }
  }

  method FindAmbiguous(sections: seq<AuthorSection>) returns (found: bool)
    ensures found == Ambiguous(sections, |sections|)
  {
    var seen: set<string> := {};
    var n := 0;
    while n < |sections|
      invariant 0 <= n <= |sections| && seen == Identities(sections, n) && !Ambiguous(sections, n)
    {
      var s := sections[n];
      var identity := Identity(s);
      if identity != "key:" {
        if identity in seen || (s.sectionId != "" && s.key != "") {
          AmbiguousStays(sections, n + 1, |sections|);
          return true;
        }
        seen := seen + {identity};
      }
      n := n + 1;
    }
    found := false;
  }

  method Retain(sections: seq<Section>, deleteIds: seq<string>) returns (r: Option<map<string, Section>>)
    ensures r == Delete(Available(sections, |sections|), deleteIds, |deleteIds|)
  {
    var available: map<string, Section> := map[];
    for n := 0 to |sections|
      invariant available == Available(sections, n)
    {
      available := available[sections[n].id := sections[n]];
    }
    ghost var all := available;
    var k := 0;
    while k < |deleteIds|
      invariant 0 <= k <= |deleteIds| && Delete(all, deleteIds, k) == Some(available)
    {
      if deleteIds[k] !in available {
        DeleteFails(all, deleteIds, k + 1, |deleteIds|);
        return None;
      }
      available := available - {deleteIds[k]};
      k := k + 1;
    }
    r := Some(available);
  }

  method Arrange(available: map<string, Section>, created: map<string, string>, order: seq<string>) returns (r: Placing)
    ensures r == Place(available, created, order, |order|)
  {
    var next: seq<Section>, left := [], available;
    var k := 0;
    while k < |order|
      invariant 0 <= k <= |order| && Place(available, created, order, k) == Placed(next, left)
    {
      var id := order[k];
      if id in created && created[id] != "" {
        if id in left {
          PlaceFails(available, created, order, k + 1, |order|);
          return Misplaced(AmbiguousKey);
        }
        id := created[id];
      }
      if id !in left {
        PlaceFails(available, created, order, k + 1, |order|);
        return Misplaced(UnknownInOrder);
      }
      next, left := next + [left[id]], left - {id};
      k := k + 1;
    }
    r := Placed(next, left);
  }

  method Reorder(d: Draft, deleteIds: seq<string>, order: seq<string>) returns (r: Outcome)
    ensures r == Restructure(d, deleteIds, order)
  {
    hide Available, Delete, Place;
    if d.receipt.rejected != [] {
      return Refused(PartRejected);
    }
    var available := Retain(d.article.sections, deleteIds);
    if available.None? {
      return Refused(UnknownDelete);
    }
    var complete := order;
    if order == [] {
      for n := 0 to |d.article.sections|
        invariant complete == Remaining(d.article.sections, available.value, n)
      {
        if d.article.sections[n].id in available.value {
          complete := complete + [d.article.sections[n].id];
        }
      }
    }
    if |complete| != |available.value| {
      return Refused(IncompleteOrder);
    }
    var placing := Arrange(available.value, d.receipt.created, complete);
    if placing.Misplaced? {
      return Refused(placing.problem);
    }
    r := Prepared(d.(article := d.article.(sections := placing.sections), receipt := d.receipt.(accepted := complete)));
  }

  /** Drops limitations without a chapter and citations without a reference. */
  method Clean(a: Article) returns (r: Article)
    ensures r == Prune(a)
  {
    hide BlockCitations, Elements, Concerned;
    var used: set<string>, ids: seq<string> := {}, SectionIds(a.sections);
    for n := 0 to |a.sections|
      invariant used == SectionRefs(a.sections, n)
    {
      ghost var before := used;
      var bs := a.sections[n].blocks;
      for k := 0 to |bs|
        invariant used == before + BlockRefs(bs, k)
      {
        used := used + Elements(BlockCitations(bs[k]));
      }
    }
    var kept: seq<Limitation> := [];
    for n := 0 to |a.limitations|
      invariant kept == Relevant(a.limitations, ids, n) && used == SectionRefs(a.sections, |a.sections|) + LimitationRefs(kept, |kept|)
    {
      if Concerned(a.limitations[n], ids) {
        LimitationRefsSnoc(kept, a.limitations[n]);
        kept := kept + [a.limitations[n]];
        used := used + Elements(a.limitations[n].citationIds);
      }
    }
    r := a.(limitations := kept, quality := if kept == [] then Standard else WithLimitations,
            citations := map id | id in a.citations && id in used :: a.citations[id]);
  }

  lemma LimitationRefsPrefix(ls: seq<Limitation>, l: Limitation, n: nat)
    requires n <= |ls|
    ensures LimitationRefs(ls + [l], n) == LimitationRefs(ls, n)
  {
    if n > 0 {
      LimitationRefsPrefix(ls, l, n - 1);
    }
  }

  lemma LimitationRefsSnoc(ls: seq<Limitation>, l: Limitation)
    ensures LimitationRefs(ls + [l], |ls| + 1) == LimitationRefs(ls, |ls|) + Elements(l.citationIds)
  {
    LimitationRefsPrefix(ls, l, |ls|);
  }

  method WriteSections(rules: Rules, d: Draft, sections: seq<AuthorSection>) returns (r: Draft)
    ensures r == ApplyAll(rules, Catalog(rules.world), d, sections, |sections|)
  {
    hide Catalog, CompileSection, Unscoped;
    var cat := Catalog(rules.world);
    var article, notes, receipt := d.article, d.notes, d.receipt;
    for i := 0 to |sections|
      invariant Draft(article, notes, receipt) == ApplyAll(rules, cat, d, sections, i)
    {
      var s := sections[i];
      var reason: Option<Reason> := None;
      if s.rejected != "" {
        reason := Some(Malformed(s.rejected));
      } else if s.sectionId == "" && s.key == "" {
        reason := Some(NoIdentity);
      } else {
        var id := if s.sectionId == "" then NewId(rules, s.key) else s.sectionId;
        var at := IndexOf(article.sections, id);
        if s.sectionId != "" && at < 0 {
          reason := Some(UnknownSection);
        } else if s.sectionId == "" && at >= 0 {
          reason := Some(KeyTaken);
        } else {
          var c := CanonicalSection(rules.world, cat, s, id);
          if c.Fail? {
            reason := Some(c.reason);
          } else if !rules.acceptable(c.value.section, c.value.citations) {
            reason := Some(InvalidBlocks);
          } else {
            article := Install(article, at, c.value);
            notes := notes + c.value.notes;
            receipt := receipt.(accepted := receipt.accepted + [id],
                                created := if at < 0 then receipt.created[s.key := id] else receipt.created);
          }
        }
      }
      if reason.Some? {
        receipt := receipt.(rejected := receipt.rejected + [OfSection(i, reason.value)]);
      }
    }
    r := Draft(article, notes, receipt);
  }

  method PrepareEdit(rules: Rules, d: Draft, input: SaveInput) returns (r: Outcome)
    ensures r == Edit(rules, d, input)
  {
    hide Catalog, ApplyAll, Ambiguous, Restructure, Prune;
    if |input.sections| > MAX_SECTIONS || !rules.fits(input) {
      return Refused(TooLarge);
    }
    if input.mindMap {
      return Refused(MindMapUnavailable);
    }
    var ambiguous := FindAmbiguous(input.sections);
    if ambiguous {
      return Refused(AmbiguousIdentity);
    }
    if exists s | s in input.sections :: s.sectionId != "" && s.sectionId in input.deleteIds {
      return Refused(DeletedAndReplaced);
    }
    var written := WriteSections(rules, d.(receipt := NO_RECEIPT), input.sections);
    written := Retitle(written, input.title);
    if Structural(input) {
      var structured := Reorder(written, input.deleteIds, input.order);
      if structured.Refused? {
        return structured;
      }
      written := structured.draft;
    }
    if |written.article.sections| > MAX_SECTIONS {
      return Refused(TooManySections);
    }
    var article := Clean(written.article);
    written := written.(article := article);
    r := if rules.retains(written) then Prepared(written) else Refused(DraftTooLarge);
  }
}
