/** Compaction reads the same: the same originals in the same order, with the widest range; nothing
    else moves, no existing citation changes, and a second pass finds nothing to do. */
module CompactionMeaning {
  import opened Lists
  import opened Wrappers
  import opened ArticleBlocks
  import opened CitationCompaction

  // ----- what a reference list says

  /** An original that is referred to, or a reference that stands for itself. */
  datatype Token = Original(segmentId: string, snapshotId: string, display: string, textOrigin: string) | Whole(id: string)

  function Originals(c: Citation): seq<Token>
    requires c.VideoText?
  {
    seq(|c.segmentIds|, k requires 0 <= k < |c.segmentIds| => Original(c.segmentIds[k], c.snapshotId, c.display, c.textOrigin))
  }

  function Tokens(x: Index, m: map<string, Citation>, id: string): seq<Token> {
    if id in m && Eligible(x, m[id]) then Originals(m[id]) else [Whole(id)]
  }

  function Read(x: Index, m: map<string, Citation>, ids: seq<string>, i: nat): seq<Token>
    requires i <= |ids|
    decreases |ids| - i
  {
    if i == |ids| then [] else Tokens(x, m, ids[i]) + Read(x, m, ids, i + 1)
  }

  function ReadAll(x: Index, m: map<string, Citation>, ids: seq<string>): seq<Token> {
    Read(x, m, ids, 0)
  }

  // ----- how the citations may change

  predicate IsGroupName(id: string) {
    GROUP <= id
  }

  ghost predicate HashIsInjective(x: Index) {
    forall c, c' | x.hash(c) == x.hash(c') :: c == c'
  }

  /** Citations under a group name are the groups of that name. */
  ghost predicate Keyed(x: Index, m: map<string, Citation>) {
    forall id | id in m && IsGroupName(id) :: m[id].VideoText? && m[id] == Named(x, m[id]) && m[id].id == id
  }

  /** Only groups are added. */
  ghost predicate Grows(m: map<string, Citation>, m': map<string, Citation>) {
    && (forall id | id in m :: id in m' && m'[id] == m[id])
    && (forall id | id in m' && id !in m :: IsGroupName(id))
  }

  /** No reference waits for a group that does not exist. */
  ghost predicate Settable(m: map<string, Citation>, ids: seq<string>) {
    forall id | id in ids && id !in m :: !IsGroupName(id)
  }

  lemma GrowsOn(m: map<string, Citation>, m': map<string, Citation>, m'': map<string, Citation>)
    requires Grows(m, m') && Grows(m', m'')
    ensures Grows(m, m'')
  {
  }

  lemma AddGroup(x: Index, m: map<string, Citation>, g: Citation)
    requires HashIsInjective(x) && Keyed(x, m) && g.VideoText?
    ensures var n := Named(x, g); Grows(m, m[n.id := n]) && Keyed(x, m[n.id := n]) && IsGroupName(n.id)
  {
    var n := Named(x, g);
    assert n.id == GROUP + x.hash(WithId(g, ""));
    assert Named(x, n) == n;
    if n.id in m {
      var c := m[n.id];
      assert c == Named(x, c) && c.id == n.id;
      assert (GROUP + x.hash(WithId(c, "")))[|GROUP|..] == x.hash(WithId(c, ""));
      assert n.id[|GROUP|..] == x.hash(WithId(g, ""));
    }
  }

  lemma TokensStay(x: Index, m: map<string, Citation>, m': map<string, Citation>, id: string)
    requires Grows(m, m') && (id in m || !IsGroupName(id))
    ensures Tokens(x, m', id) == Tokens(x, m, id) && (id in m' <==> id in m)
  {
  }

  lemma {:induction false} ReadStays(x: Index, m: map<string, Citation>, m': map<string, Citation>, ids: seq<string>, i: nat)
    requires Grows(m, m') && Settable(m, ids) && i <= |ids|
    ensures Read(x, m', ids, i) == Read(x, m, ids, i)
    decreases |ids| - i
  {
    hide Tokens, Grows, IsGroupName;
    if i < |ids| {
      TokensStay(x, m, m', ids[i]);
      ReadStays(x, m, m', ids, i + 1);
    }
  }

  lemma SettableStays(m: map<string, Citation>, m': map<string, Citation>, ids: seq<string>)
    requires Grows(m, m') && Settable(m, ids)
    ensures Settable(m', ids)
  {
  }

  // ----- one list

  lemma OriginalsAppend(x: Index, g: Citation, c: Citation)
    requires Eligible(x, g) && Joins(x, g, c)
    ensures Originals(Append(g, c)) == Originals(g) + Originals(c)
  {
  }

  lemma {:induction false} ExtendReads(x: Index, m: map<string, Citation>, ids: seq<string>, g: Citation, end: nat)
    requires Eligible(x, g) && end <= |ids|
    ensures var r := Extend(x, m, ids, g, end); Originals(r.group) + Read(x, m, ids, r.end) == Originals(g) + Read(x, m, ids, end)
    decreases |ids| - end
  {
    hide Eligible, Joins, Append, Originals;
    if end < |ids| && ids[end] in m && Joins(x, g, m[ids[end]]) {
      var c := m[ids[end]];
      JoinedIsEligible(x, g, c);
      JoinedIsText(x, g, c);
      OriginalsAppend(x, g, c);
      ExtendReads(x, m, ids, Append(g, c), end + 1);
    }
  }

  lemma JoinedIsText(x: Index, g: Citation, c: Citation)
    requires Eligible(x, g) && Joins(x, g, c)
    ensures Paraphrase(g) && Paraphrase(c) && c.VideoText?
  {
  }

  lemma NamedIsEligible(x: Index, g: Citation)
    requires Eligible(x, g)
    ensures Eligible(x, Named(x, g)) && LastOrdinal(x, Named(x, g)) == LastOrdinal(x, g) && Originals(Named(x, g)) == Originals(g)
    ensures forall c :: Joins(x, Named(x, g), c) == Joins(x, g, c)
  {
  }

  /** The new list and the old one refer to the same originals in the same order; references that
      cannot be joined keep their places. */
  lemma {:induction false} CompactReads(x: Index, m: map<string, Citation>, ids: seq<string>, i: nat)
    requires HashIsInjective(x) && Keyed(x, m) && Settable(m, ids) && i <= |ids|
    ensures var r := CompactFrom(x, m, ids, i); Grows(m, r.citations) && Keyed(x, r.citations) && Settable(r.citations, r.ids) && ReadAll(x, r.citations, r.ids) == Read(x, m, ids, i)
    decreases |ids| - i
  {
    hide Eligible, Keyed, Extend, Named, Originals, Grows, IsGroupName, HashIsInjective;
    if i == |ids| {
      GrowsSelf(m);
    } else if ids[i] !in m || !Eligible(x, m[ids[i]]) || Extend(x, m, ids, m[ids[i]], i + 1).end == i + 1 {
      CompactReads(x, m, ids, i + 1);
      var rest := CompactFrom(x, m, ids, i + 1);
      TokensStay(x, m, rest.citations, ids[i]);
      ReadCons(x, rest.citations, ids[i], rest.ids);
    } else {
      var r := Extend(x, m, ids, m[ids[i]], i + 1);
      var g := Named(x, r.group);
      AddGroup(x, m, r.group);
      var m1 := m[g.id := g];
      SettableStays(m, m1, ids);
      CompactReads(x, m1, ids, r.end);
      var rest := CompactFrom(x, m1, ids, r.end);
      GrowsOn(m, m1, rest.citations);
      ReadStays(x, m, m1, ids, r.end);
      ExtendReads(x, m, ids, m[ids[i]], i + 1);
      NamedIsEligible(x, r.group);
      TokensStay(x, m1, rest.citations, g.id);
      ReadCons(x, rest.citations, g.id, rest.ids);
      assert g.id in rest.citations;
    }
  }

  lemma GrowsSelf(m: map<string, Citation>)
    ensures Grows(m, m)
  {
  }

  lemma {:induction false} ReadShift(x: Index, m: map<string, Citation>, id: string, ids: seq<string>, i: nat)
    requires i <= |ids|
    ensures Read(x, m, [id] + ids, i + 1) == Read(x, m, ids, i)
    decreases |ids| - i
  {
    hide Tokens;
    if i < |ids| {
      ReadShift(x, m, id, ids, i + 1);
    }
  }

  lemma ReadCons(x: Index, m: map<string, Citation>, id: string, ids: seq<string>)
    ensures ReadAll(x, m, [id] + ids) == Tokens(x, m, id) + ReadAll(x, m, ids)
  {
    hide Tokens;
    ReadShift(x, m, id, ids, 0);
  }

  // ----- ranges

  predicate Covers(r: Range, s: Range) {
    r.startMs <= s.startMs && s.endMs <= r.endMs
  }

  /** The range of a group is the smallest one around the ranges of its members: it contains them all,
      and both its ends are theirs. */
  lemma {:induction false} GroupIsHull(x: Index, m: map<string, Citation>, ids: seq<string>, g: Citation, end: nat)
    requires Eligible(x, g) && end <= |ids|
    ensures var r := Extend(x, m, ids, g, end); Covers(r.group.range.value, g.range.value) && forall j | end <= j < r.end :: ids[j] in m && Paraphrase(m[ids[j]]) && Covers(r.group.range.value, m[ids[j]].range.value)
    ensures var r := Extend(x, m, ids, g, end); r.group.range.value.startMs == g.range.value.startMs || exists j :: end <= j < r.end && ids[j] in m && Paraphrase(m[ids[j]]) && r.group.range.value.startMs == m[ids[j]].range.value.startMs
    ensures var r := Extend(x, m, ids, g, end); r.group.range.value.endMs == g.range.value.endMs || exists j :: end <= j < r.end && ids[j] in m && Paraphrase(m[ids[j]]) && r.group.range.value.endMs == m[ids[j]].range.value.endMs
    decreases |ids| - end
  {
    hide Consecutive, LastOrdinal;
    if end < |ids| && ids[end] in m && Joins(x, g, m[ids[end]]) {
      JoinedIsEligible(x, g, m[ids[end]]);
      GroupIsHull(x, m, ids, Append(g, m[ids[end]]), end + 1);
    }
  }

  // ----- a second pass

  /** A range without a quote whose originals follow one another in the transcript. */
  ghost predicate IsRun(x: Index, c: Citation) {
    && c.VideoText? && c.quote == None && c.range.Some? && c.segmentIds != []
    && (forall j | 0 <= j < |c.segmentIds| :: c.segmentIds[j] in x.ordinal)
    && (forall j, k | 0 <= j && k == j + 1 && k < |c.segmentIds| :: x.ordinal[c.segmentIds[k]] == x.ordinal[c.segmentIds[j]] + 1)
  }

  /** Two such runs of the same snapshot, origin and label, the second one where the first one ends. */
  ghost predicate AreNeighbours(x: Index, c: Citation, d: Citation) {
    && IsRun(x, c) && IsRun(x, d)
    && d.snapshotId == c.snapshotId && d.textOrigin == c.textOrigin && d.display == c.display
    && x.ordinal[d.segmentIds[0]] == x.ordinal[c.segmentIds[|c.segmentIds| - 1]] + 1
  }

  /** The two citations next to each other in a list are not neighbours in the transcript. */
  ghost predicate Apart(x: Index, m: map<string, Citation>, id: string, next: string) {
    id in m && next in m ==> !AreNeighbours(x, m[id], m[next])
  }

  lemma {:induction false} RunCounts(x: Index, c: Citation, j: nat)
    requires IsRun(x, c) && j < |c.segmentIds|
    ensures x.ordinal[c.segmentIds[j]] == x.ordinal[c.segmentIds[0]] + j
  {
    if j > 0 {
      RunCounts(x, c, j - 1);
      assert x.ordinal[c.segmentIds[j]] == x.ordinal[c.segmentIds[j - 1]] + 1;
    }
  }

  lemma RunIsEligible(x: Index, c: Citation)
    ensures Eligible(x, c) <==> IsRun(x, c)
  {
    if IsRun(x, c) {
      forall j | 0 <= j < |c.segmentIds| ensures c.segmentIds[j] in x.ordinal && x.ordinal[c.segmentIds[j]] == x.ordinal[c.segmentIds[0]] + j {
        RunCounts(x, c, j);
      }
    }
  }

  /** A citation joins a group exactly when it is its neighbour. */
  lemma JoinsExactly(x: Index, g: Citation, c: Citation)
    requires Eligible(x, g)
    ensures Joins(x, g, c) <==> AreNeighbours(x, g, c)
  {
    RunIsEligible(x, g);
    RunIsEligible(x, c);
    RunCounts(x, g, |g.segmentIds| - 1);
  }

  lemma ApartExactly(x: Index, m: map<string, Citation>, id: string, next: string)
    ensures Apart(x, m, id, next) <==> (id in m && next in m && Eligible(x, m[id]) ==> !Joins(x, m[id], m[next]))
  {
    hide Eligible, Joins;
    if id in m && next in m {
      RunIsEligible(x, m[id]);
      if Eligible(x, m[id]) {
        JoinsExactly(x, m[id], m[next]);
      }
    }
  }

  ghost predicate Settled(x: Index, m: map<string, Citation>, ids: seq<string>) {
    forall j, k | 0 <= j && k == j + 1 && k < |ids| :: Apart(x, m, ids[j], ids[k])
  }

  lemma {:induction false} SettledIsFixed(x: Index, m: map<string, Citation>, ids: seq<string>, i: nat)
    requires Settled(x, m, ids) && i <= |ids|
    ensures CompactFrom(x, m, ids, i) == Listed(m, ids[i..])
    decreases |ids| - i
  {
    hide Eligible, Joins;
    if i < |ids| {
      SettledIsFixed(x, m, ids, i + 1);
      assert ids[i..] == [ids[i]] + ids[i + 1..];
      if i + 1 < |ids| {
        assert Apart(x, m, ids[i], ids[i + 1]);
        ApartExactly(x, m, ids[i], ids[i + 1]);
      }
    }
  }

  lemma ApartStays(x: Index, m: map<string, Citation>, m': map<string, Citation>, id: string, next: string)
    requires Grows(m, m') && Apart(x, m, id, next) && Settable(m, [id, next])
    ensures Apart(x, m', id, next)
  {
    hide AreNeighbours;
    assert id in [id, next] && next in [id, next];
  }

  lemma SettledStays(x: Index, m: map<string, Citation>, m': map<string, Citation>, ids: seq<string>)
    requires Grows(m, m') && Settled(x, m, ids) && Settable(m, ids)
    ensures Settled(x, m', ids)
  {
    hide Apart, Grows;
    forall j, k | 0 <= j && k == j + 1 && k < |ids| ensures Apart(x, m', ids[j], ids[k]) {
      ApartStays(x, m, m', ids[j], ids[k]);
    }
  }

  lemma {:induction false} ExtendKeepsStart(x: Index, m: map<string, Citation>, ids: seq<string>, g: Citation, end: nat)
    requires Eligible(x, g) && end <= |ids|
    ensures var r := Extend(x, m, ids, g, end).group; g.segmentIds <= r.segmentIds && r.snapshotId == g.snapshotId && r.textOrigin == g.textOrigin && r.display == g.display
    ensures var r := Extend(x, m, ids, g, end); r.end < |ids| && ids[r.end] in m ==> !Joins(x, r.group, m[ids[r.end]])
    decreases |ids| - end
  {
    hide Consecutive, LastOrdinal;
    if end < |ids| && ids[end] in m && Joins(x, g, m[ids[end]]) {
      JoinedIsEligible(x, g, m[ids[end]]);
      ExtendKeepsStart(x, m, ids, Append(g, m[ids[end]]), end + 1);
    }
  }

  /** What joins a group joins its first member. */
  lemma JoinsStart(x: Index, g: Citation, c: Citation, c': Citation)
    requires Eligible(x, g) && Paraphrase(c) && c'.VideoText? && c.segmentIds <= c'.segmentIds
    requires c'.snapshotId == c.snapshotId && c'.textOrigin == c.textOrigin && c'.display == c.display && Joins(x, g, c')
    ensures Joins(x, g, c)
  {
  }

  /** The reference before a list stays apart from its first one. */
  lemma HeadStaysApart(x: Index, m: map<string, Citation>, ids: seq<string>, i: nat, g: Citation)
    requires HashIsInjective(x) && Keyed(x, m) && Settable(m, ids) && i < |ids| && Eligible(x, g)
    requires ids[i] in m ==> !Joins(x, g, m[ids[i]])
    ensures var r := CompactFrom(x, m, ids, i); r.ids != [] && (r.ids[0] in r.citations ==> !Joins(x, g, r.citations[r.ids[0]]))
  {
    hide Extend, HashIsInjective, Named, Keyed;
    CompactReads(x, m, ids, i);
    var r := CompactFrom(x, m, ids, i);
    if ids[i] in m && Eligible(x, m[ids[i]]) && Extend(x, m, ids, m[ids[i]], i + 1).end > i + 1 {
      var e := Extend(x, m, ids, m[ids[i]], i + 1);
      ExtendKeepsStart(x, m, ids, m[ids[i]], i + 1);
      var n := Named(x, e.group);
      AddGroup(x, m, e.group);
      var m1 := m[n.id := n];
      SettableStays(m, m1, ids);
      CompactReads(x, m1, ids, e.end);
      NamedFields(x, e.group);
      if Joins(x, g, n) {
        JoinsStart(x, g, m[ids[i]], n);
      }
    } else {
      assert r.ids[0] == ids[i];
    }
  }

  lemma NamedFields(x: Index, g: Citation)
    requires g.VideoText?
    ensures var n := Named(x, g); n.VideoText? && n.segmentIds == g.segmentIds && n.snapshotId == g.snapshotId && n.textOrigin == g.textOrigin && n.display == g.display
  {
  }

  lemma SettledCons(x: Index, m: map<string, Citation>, id: string, ids: seq<string>)
    requires Settled(x, m, ids) && (ids != [] ==> Apart(x, m, id, ids[0]))
    ensures Settled(x, m, [id] + ids)
  {
    hide Apart;
    var all := [id] + ids;
    forall j, k | 0 <= j && k == j + 1 && k < |all| ensures Apart(x, m, all[j], all[k]) {
      if j > 0 {
        assert all[j] == ids[j - 1] && all[k] == ids[k - 1];
        assert Apart(x, m, ids[j - 1], ids[k - 1]);
      }
    }
  }

  lemma {:induction false} CompactSettles(x: Index, m: map<string, Citation>, ids: seq<string>, i: nat)
    requires HashIsInjective(x) && Keyed(x, m) && Settable(m, ids) && i <= |ids|
    ensures var r := CompactFrom(x, m, ids, i); Settled(x, r.citations, r.ids)
    decreases |ids| - i
  {
    hide Eligible, Keyed, Extend, Named, Joins, IsGroupName, HashIsInjective, Settled;
    var r := CompactFrom(x, m, ids, i);
    if i == |ids| {
      NothingSettled(x, m);
    } else if ids[i] !in m || !Eligible(x, m[ids[i]]) || Extend(x, m, ids, m[ids[i]], i + 1).end == i + 1 {
      CompactSettles(x, m, ids, i + 1);
      CompactReads(x, m, ids, i + 1);
      if ids[i] in m && Eligible(x, m[ids[i]]) && i + 1 < |ids| {
        ExtendKeepsStart(x, m, ids, m[ids[i]], i + 1);
        SameWhenAlone(x, m, ids, m[ids[i]], i + 1);
        HeadStaysApart(x, m, ids, i + 1, m[ids[i]]);
      }
      if i + 1 < |ids| {
        ApartExactly(x, r.citations, ids[i], CompactFrom(x, m, ids, i + 1).ids[0]);
      }
      SettledCons(x, r.citations, ids[i], CompactFrom(x, m, ids, i + 1).ids);
    } else {
      var e := Extend(x, m, ids, m[ids[i]], i + 1);
      var g := Named(x, e.group);
      AddGroup(x, m, e.group);
      var m1 := m[g.id := g];
      SettableStays(m, m1, ids);
      CompactSettles(x, m1, ids, e.end);
      CompactReads(x, m1, ids, e.end);
      NamedIsEligible(x, e.group);
      if e.end < |ids| {
        ExtendKeepsStart(x, m, ids, m[ids[i]], i + 1);
        assert ids[e.end] in m1 ==> ids[e.end] in m;
        HeadStaysApart(x, m1, ids, e.end, g);
      }
      if e.end < |ids| {
        ApartExactly(x, r.citations, g.id, CompactFrom(x, m1, ids, e.end).ids[0]);
      }
      SettledCons(x, r.citations, g.id, CompactFrom(x, m1, ids, e.end).ids);
    }
  }

  lemma SameWhenAlone(x: Index, m: map<string, Citation>, ids: seq<string>, g: Citation, end: nat)
    requires Eligible(x, g) && end <= |ids| && Extend(x, m, ids, g, end).end == end
    ensures Extend(x, m, ids, g, end).group == g
  {
  }

  lemma NothingSettled(x: Index, m: map<string, Citation>)
    ensures Settled(x, m, [])
  {
  }

  // ----- inline content

  datatype Reading = Kept(item: Inline) | Cited(token: Token)

  function CitedTokens(ts: seq<Token>): seq<Reading> {
    seq(|ts|, k requires 0 <= k < |ts| => Cited(ts[k]))
  }

  function ReadInline(x: Index, m: map<string, Citation>, item: Inline): seq<Reading> {
    if item.Cite? then CitedTokens(Tokens(x, m, item.id)) else [Kept(item)]
  }

  function ReadInlines(x: Index, m: map<string, Citation>, items: seq<Inline>, i: nat): seq<Reading>
    requires i <= |items|
    decreases |items| - i
  {
    if i == |items| then [] else ReadInline(x, m, items[i]) + ReadInlines(x, m, items, i + 1)
  }

  ghost predicate SettableInlines(m: map<string, Citation>, items: seq<Inline>) {
    forall item | item in items && item.Cite? && item.id !in m :: !IsGroupName(item.id)
  }

  lemma {:induction false} ReadInlinesAppend(x: Index, m: map<string, Citation>, items: seq<Inline>, more: seq<Inline>, i: nat)
    requires i <= |items|
    ensures ReadInlines(x, m, items + more, i) == ReadInlines(x, m, items, i) + ReadInlines(x, m, more, 0)
    decreases |items| - i
  {
    hide ReadInline;
    if i < |items| {
      ReadInlinesAppend(x, m, items, more, i + 1);
      var head, front, back := ReadInline(x, m, items[i]), ReadInlines(x, m, items, i + 1), ReadInlines(x, m, more, 0);
      assert head + (front + back) == (head + front) + back;
    } else {
      ReadInlinesShift(x, m, items, more, 0);
    }
  }

  lemma {:induction false} ReadInlinesShift(x: Index, m: map<string, Citation>, items: seq<Inline>, more: seq<Inline>, i: nat)
    requires i <= |more|
    ensures ReadInlines(x, m, items + more, |items| + i) == ReadInlines(x, m, more, i)
    decreases |more| - i
  {
    hide ReadInline;
    if i < |more| {
      ReadInlinesShift(x, m, items, more, i + 1);
    }
  }

  lemma CitedAppend(s: seq<Token>, t: seq<Token>)
    ensures CitedTokens(s + t) == CitedTokens(s) + CitedTokens(t)
  {
  }

  /** A run of references reads as the list of its citations. */
  lemma {:induction false} ReadReferences(x: Index, m: map<string, Citation>, ids: seq<string>, i: nat)
    requires i <= |ids|
    ensures ReadInlines(x, m, References(ids), i) == CitedTokens(Read(x, m, ids, i))
    decreases |ids| - i
  {
    hide Tokens;
    if i < |ids| {
      ReadReferences(x, m, ids, i + 1);
      CitedAppend(Tokens(x, m, ids[i]), Read(x, m, ids, i + 1));
      assert References(ids)[i] == Cite(ids[i]);
    }
  }

  lemma {:induction false} ReadRun(x: Index, m: map<string, Citation>, items: seq<Inline>, i: nat, ids: seq<string>, k: nat)
    requires i + |ids| <= |items| && k <= |ids| && forall j | 0 <= j < |ids| :: items[i + j] == Cite(ids[j])
    ensures ReadInlines(x, m, items, i + k) == CitedTokens(Read(x, m, ids, k)) + ReadInlines(x, m, items, i + |ids|)
    decreases |ids| - k
  {
    hide Tokens;
    if k < |ids| {
      ReadRun(x, m, items, i, ids, k + 1);
      assert items[i + k] == Cite(ids[k]);
      CitedAppend(Tokens(x, m, ids[k]), Read(x, m, ids, k + 1));
    }
  }

  lemma {:induction false} ReadInlinesStay(x: Index, m: map<string, Citation>, m': map<string, Citation>, items: seq<Inline>, i: nat)
    requires Grows(m, m') && SettableInlines(m, items) && i <= |items|
    ensures ReadInlines(x, m', items, i) == ReadInlines(x, m, items, i)
    decreases |items| - i
  {
    hide Tokens, Grows, IsGroupName;
    if i < |items| {
      if items[i].Cite? {
        assert items[i] in items;
        TokensStay(x, m, m', items[i].id);
      }
      ReadInlinesStay(x, m, m', items, i + 1);
    }
  }

  lemma RunIsSettable(m: map<string, Citation>, items: seq<Inline>, i: nat)
    requires SettableInlines(m, items) && i <= |items|
    ensures Settable(m, RunAt(items, i))
  {
    hide RunAt, IsGroupName;
    var ids := RunAt(items, i);
    forall id | id in ids && id !in m ensures !IsGroupName(id) {
      var k :| 0 <= k < |ids| && ids[k] == id;
      assert items[i + k] == Cite(id) && items[i + k] in items;
    }
  }

  lemma InlinesStaySettable(m: map<string, Citation>, m': map<string, Citation>, items: seq<Inline>)
    requires Grows(m, m') && SettableInlines(m, items)
    ensures SettableInlines(m', items)
  {
  }

  lemma ReferencesSettable(m: map<string, Citation>, ids: seq<string>, rest: seq<Inline>)
    requires Settable(m, ids) && SettableInlines(m, rest)
    ensures SettableInlines(m, References(ids) + rest)
  {
    hide IsGroupName;
  }

  /** Text and links keep their places; between them the same originals are cited. */
  lemma {:induction false} InlinesRead(x: Index, m: map<string, Citation>, items: seq<Inline>, i: nat)
    requires HashIsInjective(x) && Keyed(x, m) && SettableInlines(m, items) && i <= |items|
    ensures var r := CompactInlinesFrom(x, m, items, i); Grows(m, r.citations) && Keyed(x, r.citations) && SettableInlines(r.citations, r.items) && ReadInlines(x, r.citations, r.items, 0) == ReadInlines(x, m, items, i)
    decreases |items| - i
  {
    hide Keyed, CompactFrom, Grows, IsGroupName, HashIsInjective, References, Read, SettableInlines, Tokens, Settable, CitedTokens, RunAt;
    if i == |items| {
      GrowsSelf(m);
      assert SettableInlines(m, []) by { NothingToSet(m); }
    } else if !items[i].Cite? {
      InlinesRead(x, m, items, i + 1);
      var rest := CompactInlinesFrom(x, m, items, i + 1);
      ReadInlinesShift(x, rest.citations, [items[i]], rest.items, 0);
      KeptSettable(rest.citations, items[i], rest.items);
    } else {
      var run := RunAt(items, i);
      var made := CompactIds(x, m, run);
      RunIsSettable(m, items, i);
      RunIsSome(items, i);
      CompactReads(x, m, run, 0);
      InlinesStaySettable(m, made.citations, items);
      InlinesRead(x, made.citations, items, i + |run|);
      var rest := CompactInlinesFrom(x, made.citations, items, i + |run|);
      GrowsOn(m, made.citations, rest.citations);
      ReadInlinesStay(x, m, made.citations, items, i + |run|);
      ReadRun(x, m, items, i, run, 0);
      ReadInlinesAppend(x, rest.citations, References(made.ids), rest.items, 0);
      ReadReferences(x, rest.citations, made.ids, 0);
      ReadStays(x, made.citations, rest.citations, made.ids, 0);
      SettableStays(made.citations, rest.citations, made.ids);
      ReferencesSettable(rest.citations, made.ids, rest.items);
    }
  }

  lemma NothingToSet(m: map<string, Citation>)
    ensures SettableInlines(m, [])
  {
  }

  lemma KeptSettable(m: map<string, Citation>, item: Inline, items: seq<Inline>)
    requires !item.Cite? && SettableInlines(m, items)
    ensures SettableInlines(m, [item] + items)
  {
  }

  ghost predicate SettledInlines(x: Index, m: map<string, Citation>, items: seq<Inline>) {
    forall j, k | 0 <= j && k == j + 1 && k < |items| && items[j].Cite? && items[k].Cite? :: Apart(x, m, items[j].id, items[k].id)
  }

  lemma RunIsSettled(x: Index, m: map<string, Citation>, items: seq<Inline>, i: nat)
    requires SettledInlines(x, m, items) && i <= |items|
    ensures Settled(x, m, RunAt(items, i))
  {
    hide RunAt, Apart;
    var ids := RunAt(items, i);
    forall j, k | 0 <= j && k == j + 1 && k < |ids| ensures Apart(x, m, ids[j], ids[k]) {
      assert items[i + j] == Cite(ids[j]) && items[i + k] == Cite(ids[k]);
    }
  }

  lemma {:induction false} SettledInlinesAreFixed(x: Index, m: map<string, Citation>, items: seq<Inline>, i: nat)
    requires SettledInlines(x, m, items) && i <= |items|
    ensures CompactInlinesFrom(x, m, items, i) == Inlined(m, items[i..])
    decreases |items| - i
  {
    hide RunAt, SettledInlines, CompactFrom, Settled;
    if i < |items| {
      if !items[i].Cite? {
        SettledInlinesAreFixed(x, m, items, i + 1);
        assert items[i..] == [items[i]] + items[i + 1..];
      } else {
        var run := RunAt(items, i);
        RunIsSome(items, i);
        RunIsSettled(x, m, items, i);
        SettledIsFixed(x, m, run, 0);
        assert run[0..] == run;
        SettledInlinesAreFixed(x, m, items, i + |run|);
        assert items[i..] == References(run) + items[i + |run|..];
      }
    }
  }

  lemma ReferencesSettled(x: Index, m: map<string, Citation>, ids: seq<string>, rest: seq<Inline>)
    requires Settled(x, m, ids) && SettledInlines(x, m, rest) && (rest != [] ==> !rest[0].Cite?)
    ensures SettledInlines(x, m, References(ids) + rest)
  {
    hide Apart;
    var all := References(ids) + rest;
    assert rest != [] ==> all[|ids|] == rest[0];
    forall j, k | 0 <= j && k == j + 1 && k < |all| && all[j].Cite? && all[k].Cite? ensures Apart(x, m, all[j].id, all[k].id) {
      if k < |ids| {
        assert all[j] == Cite(ids[j]) && all[k] == Cite(ids[k]);
      } else if k > |ids| {
        assert all[j] == rest[j - |ids|] && all[k] == rest[k - |ids|];
      }
    }
  }

  lemma KeptSettled(x: Index, m: map<string, Citation>, item: Inline, items: seq<Inline>)
    requires !item.Cite? && SettledInlines(x, m, items)
    ensures SettledInlines(x, m, [item] + items)
  {
    hide Apart;
    var all := [item] + items;
    forall j, k | 0 <= j && k == j + 1 && k < |all| && all[j].Cite? && all[k].Cite? ensures Apart(x, m, all[j].id, all[k].id) {
      assert all[j] == items[j - 1] && all[k] == items[k - 1];
    }
  }

  lemma CompactedHead(x: Index, m: map<string, Citation>, items: seq<Inline>, i: nat)
    requires i <= |items| && (i < |items| ==> !items[i].Cite?)
    ensures var r := CompactInlinesFrom(x, m, items, i).items; r != [] ==> !r[0].Cite?
  {
    hide CompactFrom;
  }

  lemma {:induction false} InlinesSettle(x: Index, m: map<string, Citation>, items: seq<Inline>, i: nat)
    requires HashIsInjective(x) && Keyed(x, m) && SettableInlines(m, items) && i <= |items|
    ensures var r := CompactInlinesFrom(x, m, items, i); SettledInlines(x, r.citations, r.items)
    decreases |items| - i
  {
    hide Keyed, CompactFrom, Grows, IsGroupName, HashIsInjective, References, SettableInlines, SettledInlines, Settled;
    if i == |items| {
      assert SettledInlines(x, m, []) by { NothingSettledInline(x, m); }
    } else if !items[i].Cite? {
      InlinesSettle(x, m, items, i + 1);
      var rest := CompactInlinesFrom(x, m, items, i + 1);
      KeptSettled(x, rest.citations, items[i], rest.items);
    } else {
      var run := RunAt(items, i);
      var made := CompactIds(x, m, run);
      RunIsSettable(m, items, i);
      RunIsSome(items, i);
      CompactReads(x, m, run, 0);
      CompactSettles(x, m, run, 0);
      InlinesStaySettable(m, made.citations, items);
      InlinesSettle(x, made.citations, items, i + |run|);
      InlinesRead(x, made.citations, items, i + |run|);
      var rest := CompactInlinesFrom(x, made.citations, items, i + |run|);
      SettledStays(x, made.citations, rest.citations, made.ids);
      CompactedHead(x, made.citations, items, i + |run|);
      ReferencesSettled(x, rest.citations, made.ids, rest.items);
    }
  }

  lemma NothingSettledInline(x: Index, m: map<string, Citation>)
    ensures SettledInlines(x, m, [])
  {
  }
}
