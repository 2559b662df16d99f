/** What a repair of evidence references may change, and what it achieves. */
module RepairSafety {
  import opened Lists
  import opened Text
  import opened Wrappers
  import opened ReferenceRepair

  // ----- a path names one cell

  lemma NumeralHasNoSlash(n: nat)
    ensures forall k | 0 <= k < |Decimal(n)| :: Decimal(n)[k] != '/'
  {
    DecimalCounts(n);
  }

  lemma SlashAt(a: string, rest: string, k: nat)
    requires rest != "" && rest[0] == '/' && (forall k | 0 <= k < |a| :: a[k] != '/') && k <= |a|
    ensures (a + rest)[k] == '/' <==> k == |a|
  {
  }

  /** What stands before and after the first slash is determined by the whole. */
  lemma SplitAtSlash(a: string, rest: string, b: string, rest': string)
    requires a + rest == b + rest' && rest != "" && rest' != "" && rest[0] == '/' && rest'[0] == '/'
    requires (forall k | 0 <= k < |a| :: a[k] != '/') && forall k | 0 <= k < |b| :: b[k] != '/'
    ensures a == b && rest == rest'
  {
    var k := if |a| < |b| then |a| else |b|;
    SlashAt(a, rest, k);
    SlashAt(b, rest', k);
    assert |a| == |b|;
    assert a == (a + rest)[..|a|] && rest == (a + rest)[|a|..];
    assert b == (b + rest')[..|b|] && rest' == (b + rest')[|b|..];
  }

  predicate IsList(list: string) {
    list == ISSUES || list == RESOLUTIONS || list == QUESTIONS || list == DECISIONS
  }

  /** The name of a list without its slashes. */
  function Name(list: string): string
    requires IsList(list)
  {
    list[1..|list| - 1]
  }

  lemma NamesOfLists(list: string)
    requires IsList(list)
    ensures list == "/" + Name(list) + "/" && forall k | 0 <= k < |Name(list)| :: Name(list)[k] != '/'
  {
    hide Name;
    NameOf(list);
    NamesHaveNoSlash(Name(list));
    if list == ISSUES {
      assert list == "/" + "issues" + "/";
    } else if list == RESOLUTIONS {
      assert list == "/" + "resolutions" + "/";
    } else if list == QUESTIONS {
      assert list == "/" + "coverage_questions" + "/";
    } else {
      assert list == "/" + "coverage_decisions" + "/";
    }
  }

  lemma NamesHaveNoSlash(name: string)
    requires name == "issues" || name == "resolutions" || name == "coverage_questions" || name == "coverage_decisions"
    ensures forall k | 0 <= k < |name| :: name[k] != '/'
  {
  }

  lemma NameOf(list: string)
    requires IsList(list)
    ensures Name(list) == if list == ISSUES then "issues" else if list == RESOLUTIONS then "resolutions" else if list == QUESTIONS then "coverage_questions" else "coverage_decisions"
  {
    if list == ISSUES {
      Between(list, "issues");
    } else if list == RESOLUTIONS {
      Between(list, "resolutions");
    } else if list == QUESTIONS {
      Between(list, "coverage_questions");
    } else {
      Between(list, "coverage_decisions");
    }
  }

  lemma Between(list: string, name: string)
    requires list == "/" + name + "/"
    ensures list[1..|list| - 1] == name
  {
  }

  lemma NamesAreDistinct(list: string, list': string)
    requires IsList(list) && IsList(list') && Name(list) == Name(list')
    ensures list == list'
  {
    hide Name;
    NameOf(list);
    NameOf(list');
  }

  lemma PathInjective(list: string, i: nat, j: nat, list': string, i': nat, j': nat)
    requires IsList(list) && IsList(list') && Path(list, i, j) == Path(list', i', j')
    ensures list == list' && i == i' && j == j'
  {
    hide Decimal, Name, IsList;
    NamesOfLists(list);
    NamesOfLists(list');
    NumeralHasNoSlash(i);
    NumeralHasNoSlash(i');
    var tail, tail' := "/evidence_refs/" + Decimal(j), "/evidence_refs/" + Decimal(j');
    var rest, rest' := "/" + (Decimal(i) + tail), "/" + (Decimal(i') + tail');
    assert Path(list, i, j)[1..] == Name(list) + rest;
    assert Path(list', i', j')[1..] == Name(list') + rest';
    SplitAtSlash(Name(list), rest, Name(list'), rest');
    assert rest[1..] == Decimal(i) + tail && rest'[1..] == Decimal(i') + tail';
    SplitAtSlash(Decimal(i), tail, Decimal(i'), tail');
    assert tail[15..] == Decimal(j) && tail'[15..] == Decimal(j');
    DecimalInjective(i, i');
    DecimalInjective(j, j');
    NamesAreDistinct(list, list');
  }

  // ----- the cells of a report

  ghost predicate DistinctPaths(cells: seq<Cell>) {
    forall i, j | 0 <= i < j < |cells| :: cells[i].path != cells[j].path
  }

  lemma {:induction false} RefCellsAre(list: string, i: nat, refs: seq<string>, n: nat)
    requires n <= |refs|
    ensures |RefCells(list, i, refs, n)| == n && forall j | 0 <= j < n :: RefCells(list, i, refs, n)[j] == Cell(Path(list, i, j), refs[j])
  {
    hide Path;
    if n > 0 {
      RefCellsAre(list, i, refs, n - 1);
    }
  }

  ghost predicate InList(list: string, fs: seq<Finding>, n: nat, c: Cell) {
    exists i, j :: IsAt(list, fs, n, c, i, j)
  }

  ghost predicate IsAt(list: string, fs: seq<Finding>, n: nat, c: Cell, i: int, j: int) {
    0 <= i < n <= |fs| && 0 <= j < |fs[i].evidenceRefs| && c == Cell(Path(list, i, j), fs[i].evidenceRefs[j])
  }

  lemma {:induction false} ListCellsAre(list: string, fs: seq<Finding>, n: nat, c: Cell)
    requires n <= |fs|
    ensures c in ListCells(list, fs, n) <==> InList(list, fs, n, c)
  {
    hide Path;
    if n > 0 {
      ListCellsAre(list, fs, n - 1, c);
      var refs := fs[n - 1].evidenceRefs;
      RefCellsAre(list, n - 1, refs, |refs|);
      if c in ListCells(list, fs, n - 1) {
        var i, j :| IsAt(list, fs, n - 1, c, i, j);
        assert IsAt(list, fs, n, c, i, j);
      } else if c in RefCells(list, n - 1, refs, |refs|) {
        var j :| 0 <= j < |refs| && RefCells(list, n - 1, refs, |refs|)[j] == c;
        assert IsAt(list, fs, n, c, n - 1, j);
      }
      if InList(list, fs, n, c) {
        var i, j :| IsAt(list, fs, n, c, i, j);
        if i < n - 1 {
          assert IsAt(list, fs, n - 1, c, i, j);
        } else {
          assert RefCells(list, n - 1, refs, |refs|)[j] == c;
        }
      }
    }
  }

  lemma ConcatDistinct(a: seq<Cell>, b: seq<Cell>)
    requires DistinctPaths(a) && DistinctPaths(b) && forall c, d | c in a && d in b :: c.path != d.path
    ensures DistinctPaths(a + b)
  {
    forall i, j | 0 <= i < j < |a + b| ensures (a + b)[i].path != (a + b)[j].path {
      if i < |a| <= j {
        assert a[i] in a && b[j - |a|] in b;
      }
    }
  }

  lemma {:induction false} ListPathsDistinct(list: string, fs: seq<Finding>, n: nat)
    requires IsList(list) && n <= |fs|
    ensures DistinctPaths(ListCells(list, fs, n))
  {
    hide Path, IsList, DistinctPaths, InList;
    if n > 0 {
      ListPathsDistinct(list, fs, n - 1);
      var refs := fs[n - 1].evidenceRefs;
      var front, row := ListCells(list, fs, n - 1), RefCells(list, n - 1, refs, |refs|);
      RefCellsAre(list, n - 1, refs, |refs|);
      RowPathsDistinct(list, n - 1, refs);
      forall c, d | c in front && d in row ensures c.path != d.path {
        ListCellsAre(list, fs, n - 1, c);
        EarlierPath(list, fs, n - 1, c, d, refs);
      }
      ConcatDistinct(front, row);
    } else {
      NoPaths();
    }
  }

  lemma NoPaths()
    ensures DistinctPaths([])
  {
  }

  lemma RowPathsDistinct(list: string, i: nat, refs: seq<string>)
    requires IsList(list)
    ensures DistinctPaths(RefCells(list, i, refs, |refs|))
  {
    hide Path, IsList;
    RefCellsAre(list, i, refs, |refs|);
    var row := RefCells(list, i, refs, |refs|);
    forall j, k | 0 <= j < k < |row| ensures row[j].path != row[k].path {
      if row[j].path == row[k].path {
        PathInjective(list, i, j, list, i, k);
      }
    }
  }

  lemma EarlierPath(list: string, fs: seq<Finding>, n: nat, c: Cell, d: Cell, refs: seq<string>)
    requires IsList(list) && n <= |fs| && InList(list, fs, n, c) && d in RefCells(list, n, refs, |refs|)
    ensures c.path != d.path
  {
    hide Path, IsList;
    var i, j :| IsAt(list, fs, n, c, i, j);
    RefCellsAre(list, n, refs, |refs|);
    var k :| 0 <= k < |refs| && RefCells(list, n, refs, |refs|)[k] == d;
    if c.path == d.path {
      PathInjective(list, i, j, list, n, k);
    }
  }

  lemma ListsApart(list: string, fs: seq<Finding>, list': string, fs': seq<Finding>, c: Cell, d: Cell)
    requires IsList(list) && IsList(list') && list != list' && c in ListCells(list, fs, |fs|) && d in ListCells(list', fs', |fs'|)
    ensures c.path != d.path
  {
    hide Path, IsList;
    ListCellsAre(list, fs, |fs|, c);
    ListCellsAre(list', fs', |fs'|, d);
    var i, j :| IsAt(list, fs, |fs|, c, i, j);
    var i', j' :| IsAt(list', fs', |fs'|, d, i', j');
    if c.path == d.path {
      PathInjective(list, i, j, list', i', j');
    }
  }

  /** Every path occurs once in a report. */
  lemma PathsAreDistinct(r: Report)
    ensures DistinctPaths(Cells(r))
  {
    hide DistinctPaths, ListCells;
    var a, b := ListCells(ISSUES, r.issues, |r.issues|), ListCells(RESOLUTIONS, r.resolutions, |r.resolutions|);
    var c, d := ListCells(QUESTIONS, r.questions, |r.questions|), ListCells(DECISIONS, r.decisions, |r.decisions|);
    ListPathsDistinct(ISSUES, r.issues, |r.issues|);
    ListPathsDistinct(RESOLUTIONS, r.resolutions, |r.resolutions|);
    ListPathsDistinct(QUESTIONS, r.questions, |r.questions|);
    ListPathsDistinct(DECISIONS, r.decisions, |r.decisions|);
    forall u, v | u in a && v in b ensures u.path != v.path {
      ListsApart(ISSUES, r.issues, RESOLUTIONS, r.resolutions, u, v);
    }
    ConcatDistinct(a, b);
    forall u, v | u in a + b && v in c ensures u.path != v.path {
      if u in a {
        ListsApart(ISSUES, r.issues, QUESTIONS, r.questions, u, v);
      } else {
        ListsApart(RESOLUTIONS, r.resolutions, QUESTIONS, r.questions, u, v);
      }
    }
    ConcatDistinct(a + b, c);
    forall u, v | u in a + b + c && v in d ensures u.path != v.path {
      if u in a {
        ListsApart(ISSUES, r.issues, DECISIONS, r.decisions, u, v);
      } else if u in b {
        ListsApart(RESOLUTIONS, r.resolutions, DECISIONS, r.decisions, u, v);
      } else {
        ListsApart(QUESTIONS, r.questions, DECISIONS, r.decisions, u, v);
      }
    }
    ConcatDistinct(a + b + c, d);
  }

  // ----- the cells after a repair

  function SwapCells(allowed: map<string, string>, patches: map<string, string>, cells: seq<Cell>): seq<Cell> {
    seq(|cells|, k requires 0 <= k < |cells| => Cell(cells[k].path, Swap(allowed, patches, cells[k])))
  }

  lemma SwapConcat(allowed: map<string, string>, patches: map<string, string>, a: seq<Cell>, b: seq<Cell>)
    ensures SwapCells(allowed, patches, a + b) == SwapCells(allowed, patches, a) + SwapCells(allowed, patches, b)
  {
  }

  lemma RefCellsSwapped(allowed: map<string, string>, patches: map<string, string>, list: string, i: nat, refs: seq<string>)
    ensures var fixed := SwapRefs(allowed, patches, list, i, refs); RefCells(list, i, fixed, |fixed|) == SwapCells(allowed, patches, RefCells(list, i, refs, |refs|))
  {
    hide Path, Swap;
    RefCellsAre(list, i, refs, |refs|);
    RefCellsAre(list, i, SwapRefs(allowed, patches, list, i, refs), |refs|);
  }

  lemma {:induction false} ListCellsSwapped(allowed: map<string, string>, patches: map<string, string>, list: string, fs: seq<Finding>, n: nat)
    requires n <= |fs|
    ensures ListCells(list, SwapList(allowed, patches, list, fs), n) == SwapCells(allowed, patches, ListCells(list, fs, n))
  {
    hide Path, Swap, RefCells;
    if n > 0 {
      ListCellsSwapped(allowed, patches, list, fs, n - 1);
      RefCellsSwapped(allowed, patches, list, n - 1, fs[n - 1].evidenceRefs);
      SwapConcat(allowed, patches, ListCells(list, fs, n - 1), RefCells(list, n - 1, fs[n - 1].evidenceRefs, |fs[n - 1].evidenceRefs|));
    }
  }

  /** A repair changes references and nothing else, cell by cell. */
  lemma CellsSwapped(allowed: map<string, string>, patches: map<string, string>, r: Report)
    ensures Cells(SwapAll(allowed, patches, r)) == SwapCells(allowed, patches, Cells(r))
  {
    hide ListCells, Swap, SwapCells, SwapRefs;
    ListCellsSwapped(allowed, patches, ISSUES, r.issues, |r.issues|);
    ListCellsSwapped(allowed, patches, RESOLUTIONS, r.resolutions, |r.resolutions|);
    ListCellsSwapped(allowed, patches, QUESTIONS, r.questions, |r.questions|);
    ListCellsSwapped(allowed, patches, DECISIONS, r.decisions, |r.decisions|);
    var a, b := ListCells(ISSUES, r.issues, |r.issues|), ListCells(RESOLUTIONS, r.resolutions, |r.resolutions|);
    var c, d := ListCells(QUESTIONS, r.questions, |r.questions|), ListCells(DECISIONS, r.decisions, |r.decisions|);
    SwapConcat(allowed, patches, a, b);
    SwapConcat(allowed, patches, a + b, c);
    SwapConcat(allowed, patches, a + b + c, d);
  }

  // ----- counting

  function PathsOf(cells: seq<Cell>): seq<string> {
    seq(|cells|, k requires 0 <= k < |cells| => cells[k].path)
  }

  lemma PathsOfDistinct(cells: seq<Cell>)
    ensures DistinctPaths(cells) <==> Distinct(PathsOf(cells))
  {
    forall i, j | 0 <= i < j < |cells| ensures PathsOf(cells)[i] == cells[i].path && PathsOf(cells)[j] == cells[j].path {
    }
    if Distinct(PathsOf(cells)) {
      forall i, j | 0 <= i < j < |cells| ensures cells[i].path != cells[j].path {
        assert PathsOf(cells)[i] != PathsOf(cells)[j];
      }
    }
  }

  lemma {:induction false} DistinctCount(s: seq<string>, n: nat)
    requires n <= |s|
    ensures |Elements(s[..n])| <= n
    ensures Distinct(s[..n]) <==> |Elements(s[..n])| == n
  {
    if n > 0 {
      DistinctCount(s, n - 1);
      TakeOneMore(s, n);
      assert s[..n][..n - 1] == s[..n - 1];
      DistinctSnoc(s[..n - 1], s[n - 1]);
    }
  }

  lemma DistinctSnoc(s: seq<string>, x: string)
    ensures Distinct(s + [x]) <==> Distinct(s) && x !in s
  {
    if Distinct(s + [x]) {
      forall i, j | 0 <= i < j < |s| ensures s[i] != s[j] {
        assert (s + [x])[i] != (s + [x])[j];
      }
      forall i | 0 <= i < |s| ensures s[i] != x {
        assert (s + [x])[i] != (s + [x])[|s|];
      }
    }
  }

  lemma Subset(a: set<string>, b: set<string>)
    requires a <= b && |a| >= |b|
    ensures a == b
  {
    var rest := b - a;
    assert b == a + rest;
    assert |b| == |a| + |rest|;
    assert rest == {};
  }

  /** Distinct values among at most as many are all of them. */
  lemma SameValues(s: seq<string>, t: seq<string>)
    requires Distinct(s) && |s| >= |t| && forall x | x in s :: x in t
    ensures Elements(s) == Elements(t) && Distinct(t) && |s| == |t|
  {
    assert s[..|s|] == s && t[..|t|] == t;
    DistinctCount(s, |s|);
    DistinctCount(t, |t|);
    Subset(Elements(s), Elements(t));
  }

  lemma {:induction false} CellMapKeys(cells: seq<Cell>, n: nat, path: string)
    requires n <= |cells|
    ensures path in CellMap(cells, n) <==> path in PathsOf(cells)[..n]
  {
    if n > 0 {
      CellMapKeys(cells, n - 1, path);
      TakeOneMore(PathsOf(cells), n);
    }
  }

  lemma CellMapPaths(cells: seq<Cell>, path: string)
    ensures path in CellMap(cells, |cells|) <==> path in PathsOf(cells)
  {
    CellMapKeys(cells, |cells|, path);
    assert PathsOf(cells)[..|cells|] == PathsOf(cells);
  }

  lemma {:induction false} CellMapAt(cells: seq<Cell>, n: nat, k: nat)
    requires k < n <= |cells| && DistinctPaths(cells)
    ensures cells[k].path in CellMap(cells, n) && CellMap(cells, n)[cells[k].path] == cells[k].ref
  {
    if k < n - 1 {
      CellMapAt(cells, n - 1, k);
    }
  }

  lemma {:induction false} FitMeans(allowed: map<string, string>, patches: seq<Cell>, n: nat)
    requires n <= |patches| && PatchesFit(allowed, patches, n)
    ensures Distinct(PathsOf(patches)[..n]) && forall k | 0 <= k < n :: patches[k].path in allowed && TrimSpace(patches[k].ref) != ""
  {
    hide TrimSpace, Distinct;
    if n > 0 {
      FitMeans(allowed, patches, n - 1);
      CellMapKeys(patches, n - 1, patches[n - 1].path);
      TakeOneMore(PathsOf(patches), n);
      DistinctSnoc(PathsOf(patches)[..n - 1], patches[n - 1].path);
    } else {
      NothingDistinct();
    }
  }

  lemma NothingDistinct()
    ensures Distinct<string>([])
  {
  }

  lemma {:induction false} DistinctFits(allowed: map<string, string>, patches: seq<Cell>, n: nat)
    requires n <= |patches| && Distinct(PathsOf(patches)[..n])
    requires forall k | 0 <= k < n :: patches[k].path in allowed && TrimSpace(patches[k].ref) != ""
    ensures PatchesFit(allowed, patches, n)
  {
    hide TrimSpace, Distinct;
    if n > 0 {
      TakeOneMore(PathsOf(patches), n);
      DistinctSnoc(PathsOf(patches)[..n - 1], patches[n - 1].path);
      DistinctFits(allowed, patches, n - 1);
      CellMapKeys(patches, n - 1, patches[n - 1].path);
    }
  }

  /** The paths of the cells that change. */
  function Changed(allowed: map<string, string>, patches: map<string, string>, cells: seq<Cell>, n: nat): seq<string>
    requires n <= |cells|
  {
    if n == 0 then []
    else if Changes(allowed, patches, cells[n - 1]) then Changed(allowed, patches, cells, n - 1) + [cells[n - 1].path]
    else Changed(allowed, patches, cells, n - 1)
  }

  lemma {:induction false} ChangedFrom(allowed: map<string, string>, patches: map<string, string>, cells: seq<Cell>, n: nat, path: string)
    requires n <= |cells| && path in Changed(allowed, patches, cells, n)
    ensures exists k :: 0 <= k < n && cells[k].path == path && Changes(allowed, patches, cells[k])
  {
    hide Changes;
    if !Changes(allowed, patches, cells[n - 1]) || cells[n - 1].path != path {
      ChangedFrom(allowed, patches, cells, n - 1, path);
    }
  }

  lemma {:induction false} ChangedHas(allowed: map<string, string>, patches: map<string, string>, cells: seq<Cell>, n: nat, k: nat)
    requires k < n <= |cells| && Changes(allowed, patches, cells[k])
    ensures cells[k].path in Changed(allowed, patches, cells, n)
  {
    hide Changes;
    if k < n - 1 {
      ChangedHas(allowed, patches, cells, n - 1, k);
    }
  }

  lemma {:induction false} ChangedCount(allowed: map<string, string>, patches: map<string, string>, cells: seq<Cell>, n: nat)
    requires n <= |cells| && DistinctPaths(cells)
    ensures |Changed(allowed, patches, cells, n)| == Count(allowed, patches, cells, n) && Distinct(Changed(allowed, patches, cells, n))
  {
    hide Changes, Distinct;
    if n > 0 {
      ChangedCount(allowed, patches, cells, n - 1);
      var front, path := Changed(allowed, patches, cells, n - 1), cells[n - 1].path;
      if path in front {
        ChangedFrom(allowed, patches, cells, n - 1, path);
      }
      DistinctSnoc(front, path);
    } else {
      NothingDistinct();
    }
  }

  // ----- when a repair is accepted

  /** The ticket lists distinct cells of the report, and the patches answer them one by one. */
  ghost predicate Answers(r: Report, ticket: Ticket, repair: Repair) {
    && ticket.id != "" && repair.ticketId == ticket.id && ticket.errors != [] && |repair.patches| == |ticket.errors|
    && DistinctPaths(ticket.errors) && DistinctPaths(repair.patches)
    && (forall p | p in repair.patches :: TrimSpace(p.ref) != "" && exists e :: e in ticket.errors && e.path == p.path)
    && (forall e | e in ticket.errors :: e in Cells(r))
  }

  lemma AcceptedPatches(ticket: Ticket, repair: Repair)
    requires |repair.patches| == |ticket.errors| && PatchesFit(CellMap(ticket.errors, |ticket.errors|), repair.patches, |repair.patches|)
    ensures DistinctPaths(ticket.errors) && DistinctPaths(repair.patches) && Elements(PathsOf(repair.patches)) == Elements(PathsOf(ticket.errors))
    ensures forall k | 0 <= k < |repair.patches| :: TrimSpace(repair.patches[k].ref) != ""
  {
    hide TrimSpace, PatchesFit, CellMap, Distinct, DistinctPaths, Elements;
    var errors, patches := ticket.errors, repair.patches;
    FitMeans(CellMap(errors, |errors|), patches, |patches|);
    assert PathsOf(patches)[..|patches|] == PathsOf(patches);
    forall path | path in PathsOf(patches) ensures path in PathsOf(errors) {
      var k :| 0 <= k < |patches| && PathsOf(patches)[k] == path;
      CellMapPaths(errors, path);
    }
    SameValues(PathsOf(patches), PathsOf(errors));
    PathsOfDistinct(errors);
    PathsOfDistinct(patches);
  }

  lemma SamePaths(cells: seq<Cell>, cells': seq<Cell>, k: nat)
    requires Elements(PathsOf(cells)) == Elements(PathsOf(cells')) && k < |cells|
    ensures exists m :: 0 <= m < |cells'| && cells'[m].path == cells[k].path
  {
    assert PathsOf(cells)[k] in Elements(PathsOf(cells'));
    var m :| 0 <= m < |PathsOf(cells')| && PathsOf(cells')[m] == cells[k].path;
  }

  lemma AcceptedAnswers(r: Report, ticket: Ticket, repair: Repair)
    requires Apply(r, ticket, repair).Some?
    ensures Answers(r, ticket, repair)
  {
    hide TrimSpace, PatchesFit, Count, Cells, DistinctPaths, Changes, CellMap, Elements, PathsOf;
    var errors, cells, ps := ticket.errors, Cells(r), repair.patches;
    var allowed, patches := CellMap(errors, |errors|), CellMap(ps, |ps|);
    AcceptedPatches(ticket, repair);
    PathsAreDistinct(r);
    forall p | p in ps ensures TrimSpace(p.ref) != "" && exists e :: e in errors && e.path == p.path {
      var k :| 0 <= k < |ps| && ps[k] == p;
      SamePaths(ps, errors, k);
      var m :| 0 <= m < |errors| && errors[m].path == p.path;
      assert errors[m] in errors;
    }
    forall e | e in errors ensures e in cells {
      var m :| 0 <= m < |errors| && errors[m] == e;
      ErrorFound(allowed, patches, cells, errors, ps, m);
    }
  }

  /** All paths of the ticket change when as many cells change as it lists. */
  lemma AllChange(allowed: map<string, string>, patches: map<string, string>, cells: seq<Cell>, errors: seq<Cell>, ps: seq<Cell>)
    requires DistinctPaths(cells) && patches == CellMap(ps, |ps|) && |ps| == |errors|
    requires Elements(PathsOf(ps)) == Elements(PathsOf(errors)) && Count(allowed, patches, cells, |cells|) == |errors|
    ensures Elements(Changed(allowed, patches, cells, |cells|)) == Elements(PathsOf(errors))
  {
    hide CellMap, Changed, DistinctPaths, Elements, Count;
    ChangedCount(allowed, patches, cells, |cells|);
    var changed := Changed(allowed, patches, cells, |cells|);
    forall path | path in changed ensures path in PathsOf(ps) {
      ChangedFrom(allowed, patches, cells, |cells|, path);
      CellMapPaths(ps, path);
    }
    SameValues(changed, PathsOf(ps));
  }

  lemma ErrorFound(allowed: map<string, string>, patches: map<string, string>, cells: seq<Cell>, errors: seq<Cell>, ps: seq<Cell>, m: nat)
    requires DistinctPaths(cells) && DistinctPaths(errors) && allowed == CellMap(errors, |errors|) && patches == CellMap(ps, |ps|) && |ps| == |errors|
    requires Elements(PathsOf(ps)) == Elements(PathsOf(errors)) && Count(allowed, patches, cells, |cells|) == |errors| && m < |errors|
    ensures errors[m] in cells
  {
    hide CellMap, Changed, DistinctPaths, Count;
    AllChange(allowed, patches, cells, errors, ps);
    assert PathsOf(errors)[m] == errors[m].path;
    assert errors[m].path in Elements(Changed(allowed, patches, cells, |cells|));
    ChangedFrom(allowed, patches, cells, |cells|, errors[m].path);
    var k :| 0 <= k < |cells| && cells[k].path == errors[m].path && Changes(allowed, patches, cells[k]);
    CellMapAt(errors, |errors|, m);
    assert cells[k] == errors[m];
  }

  lemma AnswersAreAccepted(r: Report, ticket: Ticket, repair: Repair)
    requires Answers(r, ticket, repair)
    ensures Apply(r, ticket, repair).Some?
  {
    hide TrimSpace, PatchesFit, Count, Cells, CellMap, Elements, Distinct, DistinctPaths, PathsOf;
    var errors, cells, ps := ticket.errors, Cells(r), repair.patches;
    var allowed, patches := CellMap(errors, |errors|), CellMap(ps, |ps|);
    AnsweredPatches(ticket, repair);
    PathsAreDistinct(r);
    forall m | 0 <= m < |errors| ensures errors[m] in cells {
      assert errors[m] in errors;
    }
    FoundErrorsCount(allowed, patches, cells, errors, ps);
  }

  lemma AnsweredPatches(ticket: Ticket, repair: Repair)
    requires DistinctPaths(ticket.errors) && DistinctPaths(repair.patches) && |repair.patches| == |ticket.errors|
    requires forall p | p in repair.patches :: TrimSpace(p.ref) != "" && exists e :: e in ticket.errors && e.path == p.path
    ensures PatchesFit(CellMap(ticket.errors, |ticket.errors|), repair.patches, |repair.patches|) && Elements(PathsOf(repair.patches)) == Elements(PathsOf(ticket.errors))
  {
    hide TrimSpace, PatchesFit, CellMap, Distinct, DistinctPaths, Elements;
    var errors, ps := ticket.errors, repair.patches;
    forall k | 0 <= k < |ps| ensures ps[k].path in CellMap(errors, |errors|) && ps[k].path in PathsOf(errors) && TrimSpace(ps[k].ref) != "" {
      assert ps[k] in ps;
      var e :| e in errors && e.path == ps[k].path;
      var m :| 0 <= m < |errors| && errors[m] == e;
      assert PathsOf(errors)[m] == e.path;
      CellMapPaths(errors, e.path);
    }
    PathsOfDistinct(ps);
    assert PathsOf(ps)[..|ps|] == PathsOf(ps);
    DistinctFits(CellMap(errors, |errors|), ps, |ps|);
    SameValues(PathsOf(ps), PathsOf(errors));
  }

  lemma FoundErrorsCount(allowed: map<string, string>, patches: map<string, string>, cells: seq<Cell>, errors: seq<Cell>, ps: seq<Cell>)
    requires DistinctPaths(cells) && DistinctPaths(errors) && allowed == CellMap(errors, |errors|) && patches == CellMap(ps, |ps|) && |ps| == |errors|
    requires Elements(PathsOf(ps)) == Elements(PathsOf(errors)) && forall m | 0 <= m < |errors| :: errors[m] in cells
    ensures Count(allowed, patches, cells, |cells|) == |errors|
  {
    hide CellMap, Changed, DistinctPaths, Elements, Count, Distinct;
    ChangedCount(allowed, patches, cells, |cells|);
    var changed := Changed(allowed, patches, cells, |cells|);
    forall path | path in changed ensures path in PathsOf(ps) {
      ChangedFrom(allowed, patches, cells, |cells|, path);
      CellMapPaths(ps, path);
    }
    forall path | path in PathsOf(errors) ensures path in changed {
      var m :| 0 <= m < |errors| && PathsOf(errors)[m] == path;
      ErrorChanges(allowed, patches, cells, errors, ps, m);
    }
    PathsOfDistinct(errors);
    BothDistinct(changed, PathsOf(ps), PathsOf(errors));
  }

  lemma ErrorChanges(allowed: map<string, string>, patches: map<string, string>, cells: seq<Cell>, errors: seq<Cell>, ps: seq<Cell>, m: nat)
    requires DistinctPaths(errors) && allowed == CellMap(errors, |errors|) && patches == CellMap(ps, |ps|) && m < |errors|
    requires Elements(PathsOf(ps)) == Elements(PathsOf(errors)) && errors[m] in cells
    ensures errors[m].path in Changed(allowed, patches, cells, |cells|)
  {
    hide CellMap, Changed, DistinctPaths;
    var k :| 0 <= k < |cells| && cells[k] == errors[m];
    CellMapAt(errors, |errors|, m);
    SamePaths(errors, ps, m);
    var i :| 0 <= i < |ps| && ps[i].path == errors[m].path;
    assert PathsOf(ps)[i] == errors[m].path;
    CellMapPaths(ps, errors[m].path);
    ChangedHas(allowed, patches, cells, |cells|, k);
  }

  lemma BothDistinct(changed: seq<string>, ps: seq<string>, errors: seq<string>)
    requires Distinct(changed) && Distinct(errors) && Elements(ps) == Elements(errors)
    requires (forall x | x in changed :: x in ps) && forall x | x in errors :: x in changed
    ensures |changed| == |errors|
  {
    assert changed[..|changed|] == changed && errors[..|errors|] == errors;
    DistinctCount(changed, |changed|);
    DistinctCount(errors, |errors|);
    forall x | x in changed ensures x in errors {
      assert x in Elements(ps);
    }
    assert Elements(changed) == Elements(errors);
  }

  /** A repair is accepted exactly when its patches answer the cells of the ticket one by one, each cell
      still holding the reference that the ticket recorded. */
  lemma AcceptedExactly(r: Report, ticket: Ticket, repair: Repair)
    ensures Apply(r, ticket, repair).Some? <==> Answers(r, ticket, repair)
  {
    if Apply(r, ticket, repair).Some? {
      AcceptedAnswers(r, ticket, repair);
    }
    if Answers(r, ticket, repair) {
      AnswersAreAccepted(r, ticket, repair);
    }
  }

  // ----- the frame of a repair

  ghost predicate SameShape(fs: seq<Finding>, fs': seq<Finding>) {
    |fs'| == |fs| && forall i | 0 <= i < |fs| :: fs'[i].rest == fs[i].rest && |fs'[i].evidenceRefs| == |fs[i].evidenceRefs|
  }

  /** The reference that a repair gives to a cell. */
  ghost predicate Repaired(repair: Repair, c: Cell, c': Cell) {
    && c'.path == c.path
    && (forall p | p in repair.patches && p.path == c.path :: c'.ref == p.ref)
    && ((forall p | p in repair.patches :: p.path != c.path) ==> c' == c)
  }

  /** An accepted repair gives the patched cells their new references and leaves every other cell, every
      finding and everything else in the report as it was. */
  lemma RepairKeepsTheRest(r: Report, ticket: Ticket, repair: Repair)
    requires Apply(r, ticket, repair).Some?
    ensures var r' := Apply(r, ticket, repair).value; r'.rest == r.rest && SameShape(r.issues, r'.issues) && SameShape(r.resolutions, r'.resolutions) && SameShape(r.questions, r'.questions) && SameShape(r.decisions, r'.decisions)
    ensures var r' := Apply(r, ticket, repair).value; |Cells(r')| == |Cells(r)| && forall k | 0 <= k < |Cells(r)| :: Repaired(repair, Cells(r)[k], Cells(r')[k])
  {
    hide TrimSpace, PatchesFit, Count, Cells, DistinctPaths, Swap, CellMap, PathsOf, Repaired;
    var allowed, patches := CellMap(ticket.errors, |ticket.errors|), CellMap(repair.patches, |repair.patches|);
    AcceptedAnswers(r, ticket, repair);
    AcceptedPatches(ticket, repair);
    CellsSwapped(allowed, patches, r);
    PathsAreDistinct(r);
    forall k | 0 <= k < |Cells(r)| ensures Repaired(repair, Cells(r)[k], Cell(Cells(r)[k].path, Swap(allowed, patches, Cells(r)[k]))) {
      SwapRepairs(ticket, repair, Cells(r), k);
    }
  }

  lemma SwapRepairs(ticket: Ticket, repair: Repair, cells: seq<Cell>, k: nat)
    requires k < |cells| && DistinctPaths(cells) && DistinctPaths(repair.patches) && DistinctPaths(ticket.errors)
    requires Elements(PathsOf(repair.patches)) == Elements(PathsOf(ticket.errors)) && forall e | e in ticket.errors :: e in cells
    ensures var allowed, patches := CellMap(ticket.errors, |ticket.errors|), CellMap(repair.patches, |repair.patches|); Repaired(repair, cells[k], Cell(cells[k].path, Swap(allowed, patches, cells[k])))
  {
    hide CellMap, DistinctPaths, Elements;
    var errors, ps, c := ticket.errors, repair.patches, cells[k];
    var allowed, patches := CellMap(errors, |errors|), CellMap(ps, |ps|);
    CellMapPaths(ps, c.path);
    if c.path in patches {
      var i :| 0 <= i < |ps| && PathsOf(ps)[i] == c.path;
      CellMapAt(ps, |ps|, i);
      SamePaths(ps, errors, i);
      var m :| 0 <= m < |errors| && errors[m].path == c.path;
      CellMapAt(errors, |errors|, m);
      assert errors[m] in errors;
      var n :| 0 <= n < |cells| && cells[n] == errors[m];
      OnePath(cells, k, n);
      forall p | p in ps && p.path == c.path ensures p == ps[i] {
        var j :| 0 <= j < |ps| && ps[j] == p;
        OnePath(ps, i, j);
      }
    } else {
      forall p | p in ps ensures p.path != c.path {
        var j :| 0 <= j < |ps| && ps[j] == p;
        assert PathsOf(ps)[j] == p.path;
      }
    }
  }

  lemma OnePath(cells: seq<Cell>, i: nat, j: nat)
    requires DistinctPaths(cells) && i < |cells| && j < |cells| && cells[i].path == cells[j].path
    ensures i == j
  {
  }

  // ----- what a repair achieves

  lemma {:induction false} InvalidHas(entries: map<string, Entry>, frames: seq<string>, cells: seq<Cell>, n: nat, k: nat)
    requires k < n <= |cells| && !Binds(entries, frames, cells[k].ref)
    ensures cells[k] in Invalid(entries, frames, cells, n)
  {
    hide Binds;
    if k < n - 1 {
      InvalidHas(entries, frames, cells, n - 1, k);
    }
  }

  lemma {:induction false} AllBind(entries: map<string, Entry>, frames: seq<string>, cells: seq<Cell>, n: nat)
    requires n <= |cells| && forall k | 0 <= k < |cells| :: Binds(entries, frames, cells[k].ref)
    ensures Invalid(entries, frames, cells, n) == []
  {
    hide Binds;
    if n > 0 {
      AllBind(entries, frames, cells, n - 1);
    }
  }

  lemma RepairedBinds(entries: map<string, Entry>, frames: seq<string>, r: Report, ticket: Ticket, repair: Repair, c: Cell, c': Cell)
    requires Apply(r, ticket, repair).Some? && Repaired(repair, c, c')
    requires Binds(entries, frames, c.ref) || c.path in PathsOf(ticket.errors)
    requires forall k | 0 <= k < |repair.patches| :: Binds(entries, frames, repair.patches[k].ref)
    ensures Binds(entries, frames, c'.ref)
  {
    hide Cells, Count, PatchesFit, DistinctPaths, Binds, CellMap, TrimSpace;
    AcceptedPatches(ticket, repair);
    if c.path in PathsOf(ticket.errors) {
      var m :| 0 <= m < |ticket.errors| && PathsOf(ticket.errors)[m] == c.path;
      SamePaths(ticket.errors, repair.patches, m);
      var k :| 0 <= k < |repair.patches| && repair.patches[k].path == c.path;
      assert repair.patches[k] in repair.patches;
    } else if p :| p in repair.patches && p.path == c.path {
      var k :| 0 <= k < |repair.patches| && repair.patches[k] == p;
    }
  }

  lemma RepairedCellBinds(entries: map<string, Entry>, frames: seq<string>, r: Report, ticket: Ticket, repair: Repair, k: nat)
    requires Apply(r, ticket, repair).Some? && k < |Cells(Apply(r, ticket, repair).value)|
    requires forall c | c in Invalid(entries, frames, Cells(r), |Cells(r)|) :: c.path in PathsOf(ticket.errors)
    requires forall k | 0 <= k < |repair.patches| :: Binds(entries, frames, repair.patches[k].ref)
    ensures Binds(entries, frames, Cells(Apply(r, ticket, repair).value)[k].ref)
  {
    hide Apply, Cells, Binds, Invalid, PathsOf, Repaired, SameShape;
    RepairKeepsTheRest(r, ticket, repair);
    var cells, cells' := Cells(r), Cells(Apply(r, ticket, repair).value);
    if !Binds(entries, frames, cells[k].ref) {
      InvalidHas(entries, frames, cells, |cells|, k);
    }
    RepairedBinds(entries, frames, r, ticket, repair, cells[k], cells'[k]);
  }

  /** When the ticket lists all cells that bound to nothing and every patch names a delivered original
      or frame, the repaired report binds completely. */
  lemma RepairedReportBinds(h: Hashes, r: Report, ticket: Ticket, repair: Repair, directory: seq<Entry>, snapshot: string, text: seq<Original>, frames: seq<string>)
    requires Apply(r, ticket, repair).Some? && Bind(h, r, directory, snapshot, text, frames).Some?
    requires forall c | c in Bind(h, r, directory, snapshot, text, frames).value.invalid :: c.path in PathsOf(ticket.errors)
    requires forall k | 0 <= k < |repair.patches| :: Binds(Entries(directory, |directory|), frames, repair.patches[k].ref)
    ensures var r' := Apply(r, ticket, repair).value; Bind(h, r', directory, snapshot, text, frames).Some? && Bind(h, r', directory, snapshot, text, frames).value.invalid == []
  {
    hide Apply, Cells, Bindings, ListQuotes, Binds, Directory, Invalid, Entries, TextOf, PathsOf;
    var entries, cells' := Entries(directory, |directory|), Cells(Apply(r, ticket, repair).value);
    forall k | 0 <= k < |cells'| ensures Binds(entries, frames, cells'[k].ref) {
      RepairedCellBinds(entries, frames, r, ticket, repair, k);
    }
    AllBind(entries, frames, cells', |cells'|);
  }
}
