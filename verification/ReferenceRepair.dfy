/** Evidence references of a review report: binding them to the delivered originals, and repairing the
    ones that bind to nothing (internal/domain/article_review_references.go). */
module ReferenceRepair {
  import opened Lists
  import opened Text
  import opened Wrappers

  /** A part of a report that cites evidence; `rest` is everything else it says. */
  datatype Finding = Finding(evidenceRefs: seq<string>, rest: string)
  datatype Report = Report(
    issues: seq<Finding>, resolutions: seq<Finding>, questions: seq<Finding>, decisions: seq<Finding>, rest: string)

  // ----- the cells of a report, in the order of the wire form

  datatype Cell = Cell(path: string, ref: string)

  const ISSUES := "/issues/"
  const RESOLUTIONS := "/resolutions/"
  const QUESTIONS := "/coverage_questions/"
  const DECISIONS := "/coverage_decisions/"

  function Path(list: string, i: nat, j: nat): string {
    list + Decimal(i) + "/evidence_refs/" + Decimal(j)
  }

  function RefCells(list: string, i: nat, refs: seq<string>, n: nat): seq<Cell>
    requires n <= |refs|
  {
    if n == 0 then [] else RefCells(list, i, refs, n - 1) + [Cell(Path(list, i, n - 1), refs[n - 1])]
  }

  function ListCells(list: string, fs: seq<Finding>, n: nat): seq<Cell>
    requires n <= |fs|
  {
    if n == 0 then []
    else ListCells(list, fs, n - 1) + RefCells(list, n - 1, fs[n - 1].evidenceRefs, |fs[n - 1].evidenceRefs|)
  }

  function Cells(r: Report): seq<Cell> {
    ListCells(ISSUES, r.issues, |r.issues|) + ListCells(RESOLUTIONS, r.resolutions, |r.resolutions|)
    + ListCells(QUESTIONS, r.questions, |r.questions|) + ListCells(DECISIONS, r.decisions, |r.decisions|)
  }

  // ----- binding

  datatype Original = Original(id: string, text: string)
  datatype Entry = Entry(ref: string, snapshotId: string, segmentId: string, textHash: string, identity: string)
  datatype Hashes = Hashes(ofText: string -> string, ofOriginal: Original -> string)

  /** `ArticleEvidenceDirectory`: the delivered originals under their aliases. */
  function Directory(h: Hashes, snapshot: string, text: seq<Original>, delivered: seq<string>, n: nat): seq<Entry>
    requires n <= |text|
  {
    if n == 0 then []
    else
      var front, t := Directory(h, snapshot, text, delivered, n - 1), text[n - 1];
      if Alias(n - 1) in delivered then front + [Entry(Alias(n - 1), snapshot, t.id, h.ofText(t.text), h.ofOriginal(t))] else front
  }

  datatype Binding = Binding(path: string, entry: Entry)
  datatype Quote = Quote(sourceId: string, quote: string)
  datatype Bound = Bound(report: seq<seq<Quote>>, bindings: seq<Binding>, invalid: seq<Cell>)

  function Entries(directory: seq<Entry>, n: nat): map<string, Entry>
    requires n <= |directory|
  {
    if n == 0 then map[] else Entries(directory, n - 1)[directory[n - 1].ref := directory[n - 1]]
  }

  function Refs(directory: seq<Entry>): seq<string> {
    seq(|directory|, k requires 0 <= k < |directory| => directory[k].ref)
  }

  function TextOf(text: seq<Original>, n: nat): map<string, string>
    requires n <= |text|
  {
    if n == 0 then map[] else TextOf(text, n - 1)[Alias(n - 1) := text[n - 1].text]
  }

  predicate Binds(entries: map<string, Entry>, frames: seq<string>, ref: string) {
    ref in entries || ref in frames
  }

  function Bindings(entries: map<string, Entry>, cells: seq<Cell>, n: nat): seq<Binding>
    requires n <= |cells|
  {
    if n == 0 then []
    else if cells[n - 1].ref in entries then Bindings(entries, cells, n - 1) + [Binding(cells[n - 1].path, entries[cells[n - 1].ref])]
    else Bindings(entries, cells, n - 1)
  }

  function Invalid(entries: map<string, Entry>, frames: seq<string>, cells: seq<Cell>, n: nat): seq<Cell>
    requires n <= |cells|
  {
    if n == 0 then []
    else if Binds(entries, frames, cells[n - 1].ref) then Invalid(entries, frames, cells, n - 1)
    else Invalid(entries, frames, cells, n - 1) + [cells[n - 1]]
  }

  function Quotes(entries: map<string, Entry>, texts: map<string, string>, refs: seq<string>, n: nat): seq<Quote>
    requires n <= |refs|
  {
    if n == 0 then []
    else if refs[n - 1] in entries then
      Quotes(entries, texts, refs, n - 1) + [Quote(refs[n - 1], if refs[n - 1] in texts then texts[refs[n - 1]] else "")]
    else Quotes(entries, texts, refs, n - 1)
  }

  function ListQuotes(entries: map<string, Entry>, texts: map<string, string>, fs: seq<Finding>): seq<seq<Quote>> {
    seq(|fs|, i requires 0 <= i < |fs| => Quotes(entries, texts, fs[i].evidenceRefs, |fs[i].evidenceRefs|))
  }

  /** `BindArticleReferences`: the exact originals for the findings and resolutions, the bound cells and
      the cells that bind to nothing; none when the directory is not the one of the delivered input. */
  function Bind(h: Hashes, r: Report, directory: seq<Entry>, snapshot: string, text: seq<Original>, frames: seq<string>): Option<Bound> {
    if Directory(h, snapshot, text, Refs(directory), |text|) != directory then None
    else
      var entries, texts := Entries(directory, |directory|), TextOf(text, |text|);
      Some(Bound(ListQuotes(entries, texts, r.issues) + ListQuotes(entries, texts, r.resolutions),
                 Bindings(entries, Cells(r), |Cells(r)|), Invalid(entries, frames, Cells(r), |Cells(r)|)))
  }

  // ----- repair

  datatype Ticket = Ticket(id: string, errors: seq<Cell>)
  datatype Repair = Repair(ticketId: string, patches: seq<Cell>)

  function CellMap(cells: seq<Cell>, n: nat): map<string, string>
    requires n <= |cells|
  {
    if n == 0 then map[] else CellMap(cells, n - 1)[cells[n - 1].path := cells[n - 1].ref]
  }

  /** The first `n` patches name listed cells, each once, with a reference that is not blank. */
  predicate PatchesFit(allowed: map<string, string>, patches: seq<Cell>, n: nat)
    requires n <= |patches|
  {
    n > 0 ==>
      PatchesFit(allowed, patches, n - 1) && patches[n - 1].path in allowed && TrimSpace(patches[n - 1].ref) != ""
      && patches[n - 1].path !in CellMap(patches, n - 1)
  }

  predicate Changes(allowed: map<string, string>, patches: map<string, string>, c: Cell) {
    c.path in patches && c.path in allowed && c.ref == allowed[c.path]
  }

  function Swap(allowed: map<string, string>, patches: map<string, string>, c: Cell): string {
    if Changes(allowed, patches, c) then patches[c.path] else c.ref
  }

  function SwapRefs(allowed: map<string, string>, patches: map<string, string>, list: string, i: nat, refs: seq<string>): seq<string> {
    seq(|refs|, j requires 0 <= j < |refs| => Swap(allowed, patches, Cell(Path(list, i, j), refs[j])))
  }

  function SwapList(allowed: map<string, string>, patches: map<string, string>, list: string, fs: seq<Finding>): seq<Finding> {
    seq(|fs|, i requires 0 <= i < |fs| => fs[i].(evidenceRefs := SwapRefs(allowed, patches, list, i, fs[i].evidenceRefs)))
  }

  function SwapAll(allowed: map<string, string>, patches: map<string, string>, r: Report): Report {
    Report(SwapList(allowed, patches, ISSUES, r.issues), SwapList(allowed, patches, RESOLUTIONS, r.resolutions),
           SwapList(allowed, patches, QUESTIONS, r.questions), SwapList(allowed, patches, DECISIONS, r.decisions), r.rest)
  }

  function Count(allowed: map<string, string>, patches: map<string, string>, cells: seq<Cell>, n: nat): nat
    requires n <= |cells|
  {
    if n == 0 then 0
    else Count(allowed, patches, cells, n - 1) + if Changes(allowed, patches, cells[n - 1]) then 1 else 0
  }

  /** `ApplyArticleReferenceRepair`. */
  function Apply(r: Report, ticket: Ticket, repair: Repair): Option<Report> {
    var allowed, patches := CellMap(ticket.errors, |ticket.errors|), CellMap(repair.patches, |repair.patches|);
    if ticket.id == "" || repair.ticketId != ticket.id || ticket.errors == [] || |repair.patches| != |ticket.errors| then None
    else if !PatchesFit(allowed, repair.patches, |repair.patches|) then None
    else if Count(allowed, patches, Cells(r), |Cells(r)|) != |ticket.errors| then None
    else Some(SwapAll(allowed, patches, r))
  }

  // ----- the repair as it is performed

  lemma {:induction false} FitStops(allowed: map<string, string>, patches: seq<Cell>, n: nat, end: nat)
    requires n <= end <= |patches| && !PatchesFit(allowed, patches, n)
    ensures !PatchesFit(allowed, patches, end)
  {
    hide TrimSpace;
    if n < end {
      FitStops(allowed, patches, n, end - 1);
    }
  }

  method ReadPatches(allowed: map<string, string>, patches: seq<Cell>) returns (r: Option<map<string, string>>)
    ensures r == if PatchesFit(allowed, patches, |patches|) then Some(CellMap(patches, |patches|)) else None
  {
    hide TrimSpace;
    var out: map<string, string> := map[];
    var n := 0;
    while n < |patches|
      invariant 0 <= n <= |patches| && PatchesFit(allowed, patches, n) && out == CellMap(patches, n)
    {
      if patches[n].path !in allowed || TrimSpace(patches[n].ref) == "" || patches[n].path in out {
        FitStops(allowed, patches, n + 1, |patches|);
        return None;
      }
      out := out[patches[n].path := patches[n].ref];
      n := n + 1;
    }
    r := Some(out);
  }

  lemma {:induction false} CountAppend(allowed: map<string, string>, patches: map<string, string>, cells: seq<Cell>, more: seq<Cell>, n: nat)
    requires n <= |more|
    ensures Count(allowed, patches, cells + more, |cells| + n) == Count(allowed, patches, cells, |cells|) + Count(allowed, patches, more, n)
  {
    if n > 0 {
      CountAppend(allowed, patches, cells, more, n - 1);
    } else {
      CountPrefix(allowed, patches, cells, more, |cells|);
    }
  }

  lemma {:induction false} CountPrefix(allowed: map<string, string>, patches: map<string, string>, cells: seq<Cell>, more: seq<Cell>, n: nat)
    requires n <= |cells|
    ensures Count(allowed, patches, cells + more, n) == Count(allowed, patches, cells, n)
  {
    if n > 0 {
      CountPrefix(allowed, patches, cells, more, n - 1);
    }
  }

  function CountAll(allowed: map<string, string>, patches: map<string, string>, cells: seq<Cell>): nat {
    Count(allowed, patches, cells, |cells|)
  }

  method SwapFindings(allowed: map<string, string>, patches: map<string, string>, list: string, fs: seq<Finding>)
    returns (out: seq<Finding>, changed: nat)
    ensures out == SwapList(allowed, patches, list, fs) && changed == CountAll(allowed, patches, ListCells(list, fs, |fs|))
  {
    hide Path, Count, Changes, Swap;
    out, changed := [], 0;
    assert CountAll(allowed, patches, []) == 0 by { CountNothing(allowed, patches); }
    for i := 0 to |fs|
      invariant |out| == i && forall k | 0 <= k < i :: out[k] == SwapList(allowed, patches, list, fs)[k]
      invariant changed == CountAll(allowed, patches, ListCells(list, fs, i))
    {
      var refs, row, more := fs[i].evidenceRefs, [], 0;
      assert CountAll(allowed, patches, RefCells(list, i, refs, 0)) == 0 by { CountNothing(allowed, patches); }
      for j := 0 to |refs|
        invariant |row| == j && forall k | 0 <= k < j :: row[k] == SwapRefs(allowed, patches, list, i, refs)[k]
        invariant more == CountAll(allowed, patches, RefCells(list, i, refs, j))
      {
        var c := Cell(Path(list, i, j), refs[j]);
        CountSnoc(allowed, patches, RefCells(list, i, refs, j), c);
        row := row + [Swap(allowed, patches, c)];
        more := more + if Changes(allowed, patches, c) then 1 else 0;
      }
      assert row == SwapRefs(allowed, patches, list, i, refs);
      out := out + [fs[i].(evidenceRefs := row)];
      CountAppend(allowed, patches, ListCells(list, fs, i), RefCells(list, i, refs, |refs|), |RefCells(list, i, refs, |refs|)|);
      changed := changed + more;
    }
  }

  lemma CountNothing(allowed: map<string, string>, patches: map<string, string>)
    ensures CountAll(allowed, patches, []) == 0
  {
  }

  lemma CountSnoc(allowed: map<string, string>, patches: map<string, string>, cells: seq<Cell>, c: Cell)
    ensures CountAll(allowed, patches, cells + [c]) == CountAll(allowed, patches, cells) + if Changes(allowed, patches, c) then 1 else 0
  {
    CountAppend(allowed, patches, cells, [c], 1);
    assert Count(allowed, patches, [c], 0) == 0;
  }

  method ApplyRepair(r: Report, ticket: Ticket, repair: Repair) returns (out: Option<Report>)
    ensures out == Apply(r, ticket, repair)
  {
    hide PatchesFit, Count, Swap, Path, Changes, SwapList, ListCells;
    if ticket.id == "" || repair.ticketId != ticket.id || ticket.errors == [] || |repair.patches| != |ticket.errors| {
      return None;
    }
    var allowed: map<string, string> := map[];
    for n := 0 to |ticket.errors|
      invariant allowed == CellMap(ticket.errors, n)
    {
      allowed := allowed[ticket.errors[n].path := ticket.errors[n].ref];
    }
    var patches := ReadPatches(allowed, repair.patches);
    if patches.None? {
      return None;
    }
    var issues, a := SwapFindings(allowed, patches.value, ISSUES, r.issues);
    var resolutions, b := SwapFindings(allowed, patches.value, RESOLUTIONS, r.resolutions);
    var questions, c := SwapFindings(allowed, patches.value, QUESTIONS, r.questions);
    var decisions, d := SwapFindings(allowed, patches.value, DECISIONS, r.decisions);
    CountReport(allowed, patches.value, r);
    if a + b + c + d != |ticket.errors| {
      return None;
    }
    out := Some(Report(issues, resolutions, questions, decisions, r.rest));
  }

  lemma CountReport(allowed: map<string, string>, patches: map<string, string>, r: Report)
    ensures CountAll(allowed, patches, Cells(r))
         == CountAll(allowed, patches, ListCells(ISSUES, r.issues, |r.issues|)) + CountAll(allowed, patches, ListCells(RESOLUTIONS, r.resolutions, |r.resolutions|))
            + CountAll(allowed, patches, ListCells(QUESTIONS, r.questions, |r.questions|)) + CountAll(allowed, patches, ListCells(DECISIONS, r.decisions, |r.decisions|))
  {
    hide Count, ListCells;
    var a, b := ListCells(ISSUES, r.issues, |r.issues|), ListCells(RESOLUTIONS, r.resolutions, |r.resolutions|);
    var c, d := ListCells(QUESTIONS, r.questions, |r.questions|), ListCells(DECISIONS, r.decisions, |r.decisions|);
    CountAppend(allowed, patches, a, b, |b|);
    CountAppend(allowed, patches, a + b, c, |c|);
    CountAppend(allowed, patches, a + b + c, d, |d|);
  }

  /** What has been bound after some cells. */
  ghost predicate BoundSoFar(entries: map<string, Entry>, frames: seq<string>, cells: seq<Cell>, bindings: seq<Binding>, invalid: seq<Cell>) {
    bindings == Bindings(entries, cells, |cells|) && invalid == Invalid(entries, frames, cells, |cells|)
  }

  /** One row of cells. */
  method BindRefs(entries: map<string, Entry>, frames: seq<string>, texts: map<string, string>, list: string, i: nat, refs: seq<string>,
                  ghost before: seq<Cell>, bindings: seq<Binding>, invalid: seq<Cell>)
    returns (row: seq<Quote>, bindings': seq<Binding>, invalid': seq<Cell>)
    requires BoundSoFar(entries, frames, before, bindings, invalid)
    ensures row == Quotes(entries, texts, refs, |refs|)
    ensures BoundSoFar(entries, frames, before + RefCells(list, i, refs, |refs|), bindings', invalid')
  {
    hide Path, Binds, BoundSoFar;
    row, bindings', invalid' := [], bindings, invalid;
    assert before + RefCells(list, i, refs, 0) == before;
    for j := 0 to |refs|
      invariant row == Quotes(entries, texts, refs, j)
      invariant BoundSoFar(entries, frames, before + RefCells(list, i, refs, j), bindings', invalid')
    {
      ghost var cells := before + RefCells(list, i, refs, j);
      var c := Cell(Path(list, i, j), refs[j]);
      OneMore(entries, frames, cells, c, bindings', invalid');
      assert before + RefCells(list, i, refs, j + 1) == cells + [c];
      if refs[j] in entries {
        bindings' := bindings' + [Binding(c.path, entries[refs[j]])];
        row := row + [Quote(refs[j], if refs[j] in texts then texts[refs[j]] else "")];
      } else if refs[j] !in frames {
        invalid' := invalid' + [c];
      }
    }
  }

  /** Binding as it is performed, one list at a time. */
  method BindList(entries: map<string, Entry>, frames: seq<string>, texts: map<string, string>, list: string, fs: seq<Finding>,
                  ghost before: seq<Cell>, bindings: seq<Binding>, invalid: seq<Cell>)
    returns (quotes: seq<seq<Quote>>, bindings': seq<Binding>, invalid': seq<Cell>)
    requires BoundSoFar(entries, frames, before, bindings, invalid)
    ensures quotes == ListQuotes(entries, texts, fs)
    ensures BoundSoFar(entries, frames, before + ListCells(list, fs, |fs|), bindings', invalid')
  {
    hide BoundSoFar, RefCells, Quotes;
    quotes, bindings', invalid' := [], bindings, invalid;
    assert before + ListCells(list, fs, 0) == before;
    for i := 0 to |fs|
      invariant |quotes| == i && forall k | 0 <= k < i :: quotes[k] == ListQuotes(entries, texts, fs)[k]
      invariant BoundSoFar(entries, frames, before + ListCells(list, fs, i), bindings', invalid')
    {
      ghost var front := before + ListCells(list, fs, i);
      var row;
      row, bindings', invalid' := BindRefs(entries, frames, texts, list, i, fs[i].evidenceRefs, front, bindings', invalid');
      quotes := quotes + [row];
      assert before + ListCells(list, fs, i + 1) == front + RefCells(list, i, fs[i].evidenceRefs, |fs[i].evidenceRefs|);
    }
  }

  lemma {:induction false} BoundPrefix(entries: map<string, Entry>, frames: seq<string>, cells: seq<Cell>, c: Cell, n: nat)
    requires n <= |cells|
    ensures Bindings(entries, cells + [c], n) == Bindings(entries, cells, n) && Invalid(entries, frames, cells + [c], n) == Invalid(entries, frames, cells, n)
  {
    hide Binds;
    if n > 0 {
      BoundPrefix(entries, frames, cells, c, n - 1);
    }
  }

  lemma OneMore(entries: map<string, Entry>, frames: seq<string>, cells: seq<Cell>, c: Cell, bindings: seq<Binding>, invalid: seq<Cell>)
    requires BoundSoFar(entries, frames, cells, bindings, invalid)
    ensures var bindings' := if c.ref in entries then bindings + [Binding(c.path, entries[c.ref])] else bindings; var invalid' := if c.ref in entries || c.ref in frames then invalid else invalid + [c]; BoundSoFar(entries, frames, cells + [c], bindings', invalid')
  {
    BoundPrefix(entries, frames, cells, c, |cells|);
  }

  method DirectoryMaps(directory: seq<Entry>, text: seq<Original>) returns (entries: map<string, Entry>, texts: map<string, string>)
    ensures entries == Entries(directory, |directory|) && texts == TextOf(text, |text|)
  {
    hide Alias;
    entries, texts := map[], map[];
    for n := 0 to |text|
      invariant texts == TextOf(text, n)
    {
      texts := texts[Alias(n) := text[n].text];
    }
    for n := 0 to |directory|
      invariant entries == Entries(directory, n)
    {
      entries := entries[directory[n].ref := directory[n]];
    }
  }

  method BindReferences(h: Hashes, r: Report, directory: seq<Entry>, snapshot: string, text: seq<Original>, frames: seq<string>) returns (out: Option<Bound>)
    ensures out == Bind(h, r, directory, snapshot, text, frames)
  {
    hide Directory, ListQuotes, ListCells, Entries, TextOf, Bindings, Invalid;
    if Directory(h, snapshot, text, Refs(directory), |text|) != directory {
      return None;
    }
    var entries, texts := DirectoryMaps(directory, text);
    NothingBound(entries, frames);
    var findings, resolutions, more: seq<seq<Quote>>, bindings, invalid;
    findings, bindings, invalid := BindList(entries, frames, texts, ISSUES, r.issues, [], [], []);
    ghost var done := ListCells(ISSUES, r.issues, |r.issues|);
    assert [] + done == done;
    resolutions, bindings, invalid := BindList(entries, frames, texts, RESOLUTIONS, r.resolutions, done, bindings, invalid);
    done := done + ListCells(RESOLUTIONS, r.resolutions, |r.resolutions|);
    more, bindings, invalid := BindList(entries, frames, texts, QUESTIONS, r.questions, done, bindings, invalid);
    done := done + ListCells(QUESTIONS, r.questions, |r.questions|);
    more, bindings, invalid := BindList(entries, frames, texts, DECISIONS, r.decisions, done, bindings, invalid);
    out := Some(Bound(findings + resolutions, bindings, invalid));
  }

  lemma NothingBound(entries: map<string, Entry>, frames: seq<string>)
    ensures BoundSoFar(entries, frames, [], [], [])
  {
  }
}
