/** What a bound report says: the exact words and the exact entry of the segment that each reference
    names, in the order of the report (internal/domain/article_review_references.go). */
module ReferenceBinding {
  import opened ReferenceRepair
  import opened RepairSafety
  import opened Text

  // ----- what a binding should be

  /** The entry of the segment at position `n`. */
  function EntryOf(h: Hashes, snapshot: string, text: seq<Original>, n: nat): Entry
    requires n < |text|
  {
    Entry(Alias(n), snapshot, text[n].id, h.ofText(text[n].text), h.ofOriginal(text[n]))
  }

  ghost predicate Ascends(at: seq<nat>, end: nat) {
    (forall k | 0 <= k < |at| :: at[k] < end) && (forall j, k | 0 <= j < k < |at| :: at[j] < at[k])
  }

  /** The directory lists entries of segments in the order of the transcript. */
  ghost predicate IsDirectory(h: Hashes, snapshot: string, text: seq<Original>, directory: seq<Entry>) {
    exists at: seq<nat> :: ListsSegments(h, snapshot, text, directory, at)
  }

  ghost predicate ListsSegments(h: Hashes, snapshot: string, text: seq<Original>, directory: seq<Entry>, at: seq<nat>) {
    && Ascends(at, |text|) && |at| == |directory|
    && forall k | 0 <= k < |at| :: directory[k] == EntryOf(h, snapshot, text, at[k])
  }

  ghost function Delivered(directory: seq<Entry>): iset<string> {
    iset e | e in directory :: e.ref
  }

  ghost function Unknown(directory: seq<Entry>, frames: seq<string>): iset<string> {
    iset ref: string | ref !in Delivered(directory) && ref !in frames
  }

  /** `at` holds exactly the positions of the chosen references, from left to right. */
  ghost predicate ArePositions(refs: seq<string>, chosen: iset<string>, at: seq<nat>) {
    Ascends(at, |refs|) && forall j: nat | j < |refs| :: j in at <==> refs[j] in chosen
  }

  ghost predicate IsQuoteOf(text: seq<Original>, ref: string, q: Quote) {
    q.sourceId == ref && exists n: nat :: n < |text| && ref == Alias(n) && q.quote == text[n].text
  }

  /** One quote for each delivered reference, with the words of the segment it names. */
  ghost predicate AreQuotes(text: seq<Original>, directory: seq<Entry>, refs: seq<string>, quotes: seq<Quote>) {
    exists at: seq<nat> ::
      ArePositions(refs, Delivered(directory), at) && |at| == |quotes|
      && forall k | 0 <= k < |at| :: IsQuoteOf(text, refs[at[k]], quotes[k])
  }

  ghost predicate IsBindingOf(h: Hashes, snapshot: string, text: seq<Original>, c: Cell, b: Binding) {
    b.path == c.path && exists n: nat :: n < |text| && c.ref == Alias(n) && b.entry == EntryOf(h, snapshot, text, n)
  }

  function CellRefs(cells: seq<Cell>): seq<string> {
    seq(|cells|, k requires 0 <= k < |cells| => cells[k].ref)
  }

  /** One binding for each cell with a delivered reference. */
  ghost predicate AreBindings(h: Hashes, snapshot: string, text: seq<Original>, directory: seq<Entry>, cells: seq<Cell>, bindings: seq<Binding>) {
    exists at: seq<nat> ::
      ArePositions(CellRefs(cells), Delivered(directory), at) && |at| == |bindings|
      && forall k | 0 <= k < |at| :: IsBindingOf(h, snapshot, text, cells[at[k]], bindings[k])
  }

  /** The cells that name neither a delivered segment nor a frame. */
  ghost predicate AreUnbound(directory: seq<Entry>, frames: seq<string>, cells: seq<Cell>, invalid: seq<Cell>) {
    exists at: seq<nat> ::
      ArePositions(CellRefs(cells), Unknown(directory, frames), at) && |at| == |invalid|
      && forall k | 0 <= k < |at| :: invalid[k] == cells[at[k]]
  }

  // ----- the directory

  lemma {:induction false} DirectoryPicks(h: Hashes, snapshot: string, text: seq<Original>, delivered: seq<string>, n: nat)
    returns (at: seq<nat>)
    requires n <= |text|
    ensures Ascends(at, n) && ListsSegments(h, snapshot, text, Directory(h, snapshot, text, delivered, n), at)
  {
    hide Alias;
    if n == 0 {
      at := [];
    } else {
      at := DirectoryPicks(h, snapshot, text, delivered, n - 1);
      if Alias(n - 1) in delivered {
        at := at + [n - 1];
      }
    }
  }

  lemma {:induction false} DirectoryRebuilt(h: Hashes, snapshot: string, text: seq<Original>, directory: seq<Entry>, at: seq<nat>, n: nat, m: nat)
    requires ListsSegments(h, snapshot, text, directory, at) && n <= |text| && m <= |at|
    requires (forall k | 0 <= k < m :: at[k] < n) && (forall k | m <= k < |at| :: at[k] >= n)
    ensures Directory(h, snapshot, text, Refs(directory), n) == directory[..m]
  {
    hide Alias;
    if n > 0 {
      if m > 0 && at[m - 1] == n - 1 {
        DirectoryRebuilt(h, snapshot, text, directory, at, n - 1, m - 1);
        assert Refs(directory)[m - 1] == Alias(n - 1);
        assert directory[..m] == directory[..m - 1] + [directory[m - 1]];
      } else {
        DirectoryRebuilt(h, snapshot, text, directory, at, n - 1, m);
        if Alias(n - 1) in Refs(directory) {
          var k :| 0 <= k < |directory| && Refs(directory)[k] == Alias(n - 1);
          AliasInjective(at[k], n - 1);
        }
      }
    }
  }

  lemma DirectoryExactly(h: Hashes, snapshot: string, text: seq<Original>, directory: seq<Entry>)
    ensures Directory(h, snapshot, text, Refs(directory), |text|) == directory <==> IsDirectory(h, snapshot, text, directory)
  {
    hide Directory, Alias;
    var at := DirectoryPicks(h, snapshot, text, Refs(directory), |text|);
    if IsDirectory(h, snapshot, text, directory) {
      var at' :| ListsSegments(h, snapshot, text, directory, at');
      DirectoryRebuilt(h, snapshot, text, directory, at', |text|, |at'|);
      assert directory[..|at'|] == directory;
    }
  }

  // ----- the maps

  lemma {:induction false} EntriesAre(directory: seq<Entry>, n: nat, ref: string)
    requires n <= |directory|
    ensures ref in Entries(directory, n) <==> exists k :: 0 <= k < n && directory[k].ref == ref
    ensures ref in Entries(directory, n) ==> Entries(directory, n)[ref] in directory && Entries(directory, n)[ref].ref == ref
  {
    if n > 0 {
      EntriesAre(directory, n - 1, ref);
    }
  }

  lemma {:induction false} TextOfAt(text: seq<Original>, n: nat, i: nat)
    requires i < n <= |text|
    ensures Alias(i) in TextOf(text, n) && TextOf(text, n)[Alias(i)] == text[i].text
  {
    hide Alias;
    if i < n - 1 {
      TextOfAt(text, n - 1, i);
      if Alias(i) == Alias(n - 1) {
        AliasInjective(i, n - 1);
      }
    }
  }

  /** A delivered reference names one segment, and both maps lead to it. */
  lemma DeliveredNames(h: Hashes, snapshot: string, text: seq<Original>, directory: seq<Entry>, ref: string) returns (n: nat)
    requires IsDirectory(h, snapshot, text, directory) && ref in Entries(directory, |directory|)
    ensures n < |text| && ref == Alias(n) && Entries(directory, |directory|)[ref] == EntryOf(h, snapshot, text, n)
    ensures ref in TextOf(text, |text|) && TextOf(text, |text|)[ref] == text[n].text
  {
    hide Alias, Entries, TextOf;
    EntriesAre(directory, |directory|, ref);
    var at :| ListsSegments(h, snapshot, text, directory, at);
    var k :| 0 <= k < |directory| && directory[k] == Entries(directory, |directory|)[ref];
    n := at[k];
    TextOfAt(text, |text|, n);
  }

  lemma DeliveredIsEntered(directory: seq<Entry>, ref: string)
    ensures ref in Entries(directory, |directory|) <==> ref in Delivered(directory)
  {
    EntriesAre(directory, |directory|, ref);
  }

  // ----- positions

  lemma PositionsStart(refs: seq<string>, chosen: iset<string>)
    ensures ArePositions(refs[..0], chosen, [])
  {
  }

  lemma PositionsGrow(refs: seq<string>, n: nat, chosen: iset<string>, at: seq<nat>)
    requires 0 < n <= |refs| && ArePositions(refs[..n - 1], chosen, at)
    ensures ArePositions(refs[..n], chosen, if refs[n - 1] in chosen then at + [n - 1] else at)
  {
    var at' := if refs[n - 1] in chosen then at + [n - 1] else at;
    forall j: nat | j < n ensures j in at' <==> refs[..n][j] in chosen {
      assert j < n - 1 ==> refs[..n - 1][j] == refs[j];
      assert j !in at || j < n - 1;
    }
  }

  lemma {:induction false} QuotesPick(h: Hashes, snapshot: string, text: seq<Original>, directory: seq<Entry>, refs: seq<string>, n: nat)
    returns (at: seq<nat>)
    requires IsDirectory(h, snapshot, text, directory) && n <= |refs|
    ensures ArePositions(refs[..n], Delivered(directory), at)
    ensures var quotes := Quotes(Entries(directory, |directory|), TextOf(text, |text|), refs, n); |at| == |quotes| && forall k | 0 <= k < |at| :: IsQuoteOf(text, refs[at[k]], quotes[k])
  {
    hide IsDirectory, Entries, TextOf, Alias, Delivered, ArePositions;
    var chosen := Delivered(directory);
    if n == 0 {
      at := [];
      PositionsStart(refs, chosen);
    } else {
      at := QuotesPick(h, snapshot, text, directory, refs, n - 1);
      PositionsGrow(refs, n, chosen, at);
      PositionsBelow(refs[..n - 1], chosen, at);
      DeliveredIsEntered(directory, refs[n - 1]);
      if refs[n - 1] in Delivered(directory) {
        var i := DeliveredNames(h, snapshot, text, directory, refs[n - 1]);
        at := at + [n - 1];
      }
    }
  }

  lemma PositionsBelow(refs: seq<string>, chosen: iset<string>, at: seq<nat>)
    requires ArePositions(refs, chosen, at)
    ensures forall k | 0 <= k < |at| :: at[k] < |refs|
  {
  }

  lemma {:induction false} BindingsPick(h: Hashes, snapshot: string, text: seq<Original>, directory: seq<Entry>, cells: seq<Cell>, n: nat)
    returns (at: seq<nat>)
    requires IsDirectory(h, snapshot, text, directory) && n <= |cells|
    ensures ArePositions(CellRefs(cells)[..n], Delivered(directory), at)
    ensures var bindings := Bindings(Entries(directory, |directory|), cells, n); |at| == |bindings| && forall k | 0 <= k < |at| :: at[k] < n && IsBindingOf(h, snapshot, text, cells[at[k]], bindings[k])
  {
    hide IsDirectory, Entries, TextOf, Alias, Delivered, ArePositions;
    var chosen := Delivered(directory);
    if n == 0 {
      at := [];
      PositionsStart(CellRefs(cells), chosen);
    } else {
      at := BindingsPick(h, snapshot, text, directory, cells, n - 1);
      PositionsGrow(CellRefs(cells), n, chosen, at);
      DeliveredIsEntered(directory, cells[n - 1].ref);
      if cells[n - 1].ref in Delivered(directory) {
        var i := DeliveredNames(h, snapshot, text, directory, cells[n - 1].ref);
        at := at + [n - 1];
      }
    }
  }

  lemma {:induction false} UnboundPick(directory: seq<Entry>, frames: seq<string>, cells: seq<Cell>, n: nat)
    returns (at: seq<nat>)
    requires n <= |cells|
    ensures ArePositions(CellRefs(cells)[..n], Unknown(directory, frames), at)
    ensures var invalid := Invalid(Entries(directory, |directory|), frames, cells, n); |at| == |invalid| && forall k | 0 <= k < |at| :: at[k] < n && invalid[k] == cells[at[k]]
  {
    hide Entries, Delivered, ArePositions;
    var chosen := Unknown(directory, frames);
    if n == 0 {
      at := [];
      PositionsStart(CellRefs(cells), chosen);
    } else {
      at := UnboundPick(directory, frames, cells, n - 1);
      PositionsGrow(CellRefs(cells), n, chosen, at);
      DeliveredIsEntered(directory, cells[n - 1].ref);
      if cells[n - 1].ref in chosen {
        at := at + [n - 1];
      }
    }
  }

  // ----- the bound report

  lemma QuotesAreExact(h: Hashes, snapshot: string, text: seq<Original>, directory: seq<Entry>, refs: seq<string>)
    requires IsDirectory(h, snapshot, text, directory)
    ensures AreQuotes(text, directory, refs, Quotes(Entries(directory, |directory|), TextOf(text, |text|), refs, |refs|))
  {
    hide IsDirectory, Entries, TextOf, Quotes, Delivered;
    var at := QuotesPick(h, snapshot, text, directory, refs, |refs|);
    assert refs[..|refs|] == refs;
  }

  lemma CellsAreExact(h: Hashes, snapshot: string, text: seq<Original>, directory: seq<Entry>, frames: seq<string>, cells: seq<Cell>)
    requires IsDirectory(h, snapshot, text, directory)
    ensures AreBindings(h, snapshot, text, directory, cells, Bindings(Entries(directory, |directory|), cells, |cells|))
    ensures AreUnbound(directory, frames, cells, Invalid(Entries(directory, |directory|), frames, cells, |cells|))
  {
    hide IsDirectory, Entries, Bindings, Invalid, Delivered;
    var at := BindingsPick(h, snapshot, text, directory, cells, |cells|);
    var at' := UnboundPick(directory, frames, cells, |cells|);
    assert CellRefs(cells)[..|cells|] == CellRefs(cells);
  }

  /** A report binds exactly when the directory lists delivered segments, and then every reference is
      bound to the words and the entry of the very segment it names. */
  lemma BindingIsExact(h: Hashes, r: Report, directory: seq<Entry>, snapshot: string, text: seq<Original>, frames: seq<string>)
    ensures Bind(h, r, directory, snapshot, text, frames).Some? <==> IsDirectory(h, snapshot, text, directory)
    ensures match Bind(h, r, directory, snapshot, text, frames) case None => true case Some(bound) => |bound.report| == |r.issues| + |r.resolutions| && (forall i | 0 <= i < |r.issues| :: AreQuotes(text, directory, r.issues[i].evidenceRefs, bound.report[i])) && (forall i | 0 <= i < |r.resolutions| :: AreQuotes(text, directory, r.resolutions[i].evidenceRefs, bound.report[|r.issues| + i])) && AreBindings(h, snapshot, text, directory, Cells(r), bound.bindings) && AreUnbound(directory, frames, Cells(r), bound.invalid)
  {
    hide Directory, IsDirectory, Entries, TextOf, Quotes, Bindings, Invalid, Cells, AreQuotes, AreBindings, AreUnbound;
    DirectoryExactly(h, snapshot, text, directory);
    if IsDirectory(h, snapshot, text, directory) {
      CellsAreExact(h, snapshot, text, directory, frames, Cells(r));
      forall f | f in r.issues || f in r.resolutions
        ensures AreQuotes(text, directory, f.evidenceRefs, Quotes(Entries(directory, |directory|), TextOf(text, |text|), f.evidenceRefs, |f.evidenceRefs|))
      {
        QuotesAreExact(h, snapshot, text, directory, f.evidenceRefs);
      }
    }
  }

  // ----- the order of the cells

  /** The name and the findings of one of the four lists of a report. */
  function NameOfList(l: nat): string {
    if l == 0 then ISSUES else if l == 1 then RESOLUTIONS else if l == 2 then QUESTIONS else DECISIONS
  }

  function FindingsOf(r: Report, l: nat): seq<Finding> {
    if l == 0 then r.issues else if l == 1 then r.resolutions else if l == 2 then r.questions else r.decisions
  }

  /** The cell of reference `j` of finding `i` in list `l`. */
  ghost predicate IsCellAt(r: Report, c: Cell, l: nat, i: int, j: int) {
    l < 4 && IsAt(NameOfList(l), FindingsOf(r, l), |FindingsOf(r, l)|, c, i, j)
  }

  predicate Before(i: int, j: int, i': int, j': int) {
    i < i' || (i == i' && j < j')
  }

  ghost predicate ListInOrder(list: string, fs: seq<Finding>, n: nat, c: Cell, c': Cell) {
    exists i: int, j: int, i': int, j': int :: Before(i, j, i', j') && IsAt(list, fs, n, c, i, j) && IsAt(list, fs, n, c', i', j')
  }

  /** The first cell stands before the second one in the wire form. */
  ghost predicate InWireOrder(r: Report, c: Cell, c': Cell) {
    exists l: nat, i: int, j: int, l': nat, i': int, j': int ::
      IsCellAt(r, c, l, i, j) && IsCellAt(r, c', l', i', j') && (l < l' || (l == l' && Before(i, j, i', j')))
  }

  lemma {:induction false} ListIsInOrder(list: string, fs: seq<Finding>, n: nat, u: nat, v: nat)
    requires n <= |fs| && u < v < |ListCells(list, fs, n)|
    ensures ListInOrder(list, fs, n, ListCells(list, fs, n)[u], ListCells(list, fs, n)[v])
  {
    hide Path, RefCells;
    if n > 0 {
      var front, refs := ListCells(list, fs, n - 1), fs[n - 1].evidenceRefs;
      var cells := ListCells(list, fs, n);
      RefCellsAre(list, n - 1, refs, |refs|);
      if v < |front| {
        ListIsInOrder(list, fs, n - 1, u, v);
        var i, j, i', j' :| Before(i, j, i', j') && IsAt(list, fs, n - 1, front[u], i, j) && IsAt(list, fs, n - 1, front[v], i', j');
        assert IsAt(list, fs, n, cells[u], i, j) && IsAt(list, fs, n, cells[v], i', j');
      } else {
        assert IsAt(list, fs, n, cells[v], n - 1, v - |front|);
        if u < |front| {
          assert front[u] in front;
          ListCellsAre(list, fs, n - 1, front[u]);
          var i, j :| IsAt(list, fs, n - 1, front[u], i, j);
          assert IsAt(list, fs, n, cells[u], i, j);
          assert Before(i, j, n - 1, v - |front|);
        } else {
          assert IsAt(list, fs, n, cells[u], n - 1, u - |front|);
          assert Before(n - 1, u - |front|, n - 1, v - |front|);
        }
      }
    }
  }

  function CellsOf(r: Report, l: nat): seq<Cell> {
    ListCells(NameOfList(l), FindingsOf(r, l), |FindingsOf(r, l)|)
  }

  /** The list in which the cell at position `u` stands, and where in it. */
  lemma CellLocated(r: Report, u: nat) returns (l: nat, k: nat)
    requires u < |Cells(r)|
    ensures l < 4 && k < |CellsOf(r, l)| && Cells(r)[u] == CellsOf(r, l)[k]
    ensures u == k + (if l > 0 then |CellsOf(r, 0)| else 0) + (if l > 1 then |CellsOf(r, 1)| else 0) + (if l > 2 then |CellsOf(r, 2)| else 0)
  {
    hide ListCells;
    l, k := 0, u;
    if k >= |CellsOf(r, 0)| {
      l, k := 1, k - |CellsOf(r, 0)|;
      if k >= |CellsOf(r, 1)| {
        l, k := 2, k - |CellsOf(r, 1)|;
        if k >= |CellsOf(r, 2)| {
          l, k := 3, k - |CellsOf(r, 2)|;
        }
      }
    }
  }

  /** The cells of a report are its references, from the first to the last one of the wire form. */
  lemma CellsAreTheReferences(r: Report, c: Cell)
    ensures c in Cells(r) <==> exists l: nat, i: int, j: int :: IsCellAt(r, c, l, i, j)
    ensures forall u: nat, v: nat | u < v < |Cells(r)| :: InWireOrder(r, Cells(r)[u], Cells(r)[v])
  {
    hide Cells, InWireOrder;
    CellsAreMembers(r, c);
    forall u: nat, v: nat | u < v < |Cells(r)| ensures InWireOrder(r, Cells(r)[u], Cells(r)[v]) {
      CellsAreInOrder(r, u, v);
    }
  }

  lemma CellsAreMembers(r: Report, c: Cell)
    ensures c in Cells(r) <==> exists l: nat, i: int, j: int :: IsCellAt(r, c, l, i, j)
  {
    hide ListCells, IsAt;
    forall l: nat | l < 4 ensures c in CellsOf(r, l) <==> exists i, j :: IsCellAt(r, c, l, i, j) {
      ListCellsAre(NameOfList(l), FindingsOf(r, l), |FindingsOf(r, l)|, c);
      if c in CellsOf(r, l) {
        var i, j :| IsAt(NameOfList(l), FindingsOf(r, l), |FindingsOf(r, l)|, c, i, j);
        assert IsCellAt(r, c, l, i, j);
      }
    }
    assert c in Cells(r) <==> c in CellsOf(r, 0) || c in CellsOf(r, 1) || c in CellsOf(r, 2) || c in CellsOf(r, 3);
  }

  lemma CellsAreInOrder(r: Report, u: nat, v: nat)
    requires u < v < |Cells(r)|
    ensures InWireOrder(r, Cells(r)[u], Cells(r)[v])
  {
    hide Cells, ListCells, IsAt, CellsOf;
    var l, k := CellLocated(r, u);
    var l', k' := CellLocated(r, v);
    if l == l' {
      SameListInOrder(r, l, k, k');
    } else {
      var i, j := CellIsSomewhere(r, l, k);
      var i', j' := CellIsSomewhere(r, l', k');
    }
  }

  lemma CellIsSomewhere(r: Report, l: nat, k: nat) returns (i: int, j: int)
    requires l < 4 && k < |CellsOf(r, l)|
    ensures IsCellAt(r, CellsOf(r, l)[k], l, i, j)
  {
    hide ListCells, IsAt;
    ListCellsAre(NameOfList(l), FindingsOf(r, l), |FindingsOf(r, l)|, CellsOf(r, l)[k]);
    i, j :| IsAt(NameOfList(l), FindingsOf(r, l), |FindingsOf(r, l)|, CellsOf(r, l)[k], i, j);
  }

  lemma SameListInOrder(r: Report, l: nat, k: nat, k': nat)
    requires l < 4 && k < k' < |CellsOf(r, l)|
    ensures InWireOrder(r, CellsOf(r, l)[k], CellsOf(r, l)[k'])
  {
    hide ListCells, IsAt;
    var list, fs := NameOfList(l), FindingsOf(r, l);
    ListIsInOrder(list, fs, |fs|, k, k');
    var i, j, i', j' :| Before(i, j, i', j') && IsAt(list, fs, |fs|, CellsOf(r, l)[k], i, j) && IsAt(list, fs, |fs|, CellsOf(r, l)[k'], i', j');
    assert IsCellAt(r, CellsOf(r, l)[k], l, i, j) && IsCellAt(r, CellsOf(r, l)[k'], l, i', j');
  }
}
