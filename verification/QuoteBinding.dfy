/** Resolution of reviewer quotes against the delivered originals
    (internal/domain/article_review_binding.go, article_review_evidence.go). */
module QuoteBinding {
  import opened Text

  datatype Segment = Segment(id: string, text: string)

  /** A transcript segment as the index reads it: its identity, the alias its position gives
      it, and its normalized text. */
  datatype Line = Line(id: string, alias: string, text: string)

  datatype Scope = Scope(sourceIds: seq<string>, contextSourceIds: seq<string>)
  datatype Quote = Quote(sourceId: string, quote: string)
  datatype Span = Span(start: nat, end: nat, alias: string)
  datatype Run = Run(text: string, spans: seq<Span>)
  datatype QuoteIndex = QuoteIndex(originals: map<string, string>, runs: seq<Run>)
  datatype Binding = Kept(quote: Quote) | Rebound(parts: seq<Quote>) | Rejected

  function Lines(text: seq<Segment>): (out: seq<Line>)
    ensures |out| == |text|
    ensures forall i | 0 <= i < |text| :: out[i] == Line(text[i].id, Alias(i), Normalize(text[i].text))
  {
    seq(|text|, i requires 0 <= i < |text| => Line(text[i].id, Alias(i), Normalize(text[i].text)))
  }

  predicate Delivered(scope: Scope, t: Line) {
    t.id in scope.sourceIds || t.id in scope.contextSourceIds
  }

  function Pieces(text: seq<Line>): (out: seq<string>)
    ensures |out| == |text|
    ensures forall i | 0 <= i < |text| :: out[i] == text[i].text
  {
    seq(|text|, i requires 0 <= i < |text| => text[i].text)
  }

  // ----- the index: delivered originals, and the runs of consecutive delivered originals

  function Recorded(originals: map<string, string>, t: Line): map<string, string> {
    originals[t.id := t.text][t.alias := t.text]
  }

  /** What the first `n` segments record; both names of a segment denote its normalized text. */
  function Originals(scope: Scope, text: seq<Line>, n: nat): map<string, string>
    requires n <= |text|
  {
    if n == 0 then map[]
    else if Delivered(scope, text[n - 1]) then
      Recorded(Originals(scope, text, n - 1), text[n - 1])
    else Originals(scope, text, n - 1)
  }

  /** Where each segment of a run lies, from position `base` on; one blank separates neighbours. */
  function SpansFrom(of: seq<Line>, base: nat): seq<Span> {
    if of == [] then []
    else [Span(base, base + |of[0].text|, of[0].alias)] + SpansFrom(of[1..], base + |of[0].text| + 1)
  }

  /** A run holds the joined originals of consecutive segments and where each of them lies. */
  ghost predicate IsRun(run: Run, of: seq<Line>) {
    run.text == Join(Pieces(of)) && run.spans == SpansFrom(of, 0)
  }

  datatype Stretch = Stretch(lo: nat, hi: nat)

  ghost predicate IsStretch(scope: Scope, text: seq<Line>, s: Stretch) {
    && s.lo < s.hi <= |text|
    && (forall i | s.lo <= i < s.hi :: Delivered(scope, text[i]))
    && (s.lo > 0 ==> !Delivered(scope, text[s.lo - 1]))
    && (s.hi < |text| ==> !Delivered(scope, text[s.hi]))
  }

  ghost predicate InStretch(at: seq<Stretch>, i: nat) {
    exists r :: 0 <= r < |at| && at[r].lo <= i < at[r].hi
  }

  ghost predicate IsRunOf(run: Run, scope: Scope, text: seq<Line>, s: Stretch) {
    IsStretch(scope, text, s) && IsRun(run, text[s.lo..s.hi])
  }

  /** Of the segments before `end`, the runs are exactly the maximal stretches of consecutive
      delivered ones, in order. */
  ghost predicate RunsUpTo(runs: seq<Run>, scope: Scope, text: seq<Line>, at: seq<Stretch>, end: nat) {
    && |at| == |runs|
    && (forall r | 0 <= r < |runs| :: IsRunOf(runs[r], scope, text, at[r]) && at[r].hi < end)
    && (forall q, r | 0 <= q < r < |runs| :: at[q].hi < at[r].lo)
    && (forall i {:trigger InStretch(at, i)} | 0 <= i < |text| && i < end && Delivered(scope, text[i]) :: InStretch(at, i))
  }

  ghost predicate RunsAre(runs: seq<Run>, scope: Scope, text: seq<Line>, at: seq<Stretch>) {
    RunsUpTo(runs, scope, text, at, |text| + 1)
  }

  ghost predicate AllRuns(runs: seq<Run>, scope: Scope, text: seq<Line>) {
    exists at :: RunsAre(runs, scope, text, at)
  }

  ghost predicate IsIndex(idx: QuoteIndex, scope: Scope, text: seq<Line>) {
    && idx.originals == Originals(scope, text, |text|)
    && AllRuns(idx.runs, scope, text)
  }

  lemma {:induction false} SpansAppend(of: seq<Line>, base: nat, t: Line)
    ensures var start := if of == [] then base else base + |Join(Pieces(of))| + 1;
      SpansFrom(of + [t], base) == SpansFrom(of, base) + [Span(start, start + |t.text|, t.alias)]
  {
    if of == [] {
      assert (of + [t])[1..] == [];
    } else {
      assert (of + [t])[1..] == of[1..] + [t] && Pieces(of)[1..] == Pieces(of[1..]);
      SpansAppend(of[1..], base + |of[0].text| + 1, t);
    }
  }

  /** `run.text += " "; run.text += normalized; run.spans = append(...)`. */
  function Extended(run: Run, normalized: string, alias: string): Run {
    var start := if run.spans == [] then 0 else |run.text| + 1;
    Run((if run.spans == [] then "" else run.text + " ") + normalized,
        run.spans + [Span(start, start + |normalized|, alias)])
  }

  lemma RunGrows(run: Run, of: seq<Line>, t: Line)
    requires IsRun(run, of)
    ensures IsRun(Extended(run, t.text, t.alias), of + [t])
  {
    SpansAppend(of, 0, t);
    assert Pieces(of + [t]) == Pieces(of) + [t.text];
    if of == [] {
      assert "" + t.text == t.text == Join(Pieces([t]));
    } else {
      JoinSplit(Pieces(of), [t.text]);
    }
  }

  /** The run being built covers the delivered segments `lo..end`, and could not begin earlier. */
  ghost predicate IsOpen(run: Run, scope: Scope, text: seq<Line>, lo: nat, end: nat) {
    && lo <= end <= |text| && IsRun(run, text[lo..end])
    && (forall j | lo <= j < end :: Delivered(scope, text[j]))
    && (lo > 0 ==> !Delivered(scope, text[lo - 1]))
  }

  lemma OpenGrows(run: Run, scope: Scope, text: seq<Line>, lo: nat, i: nat)
    requires i < |text| && IsOpen(run, scope, text, lo, i) && Delivered(scope, text[i])
    ensures IsOpen(Extended(run, text[i].text, text[i].alias), scope, text, lo, i + 1)
  {
    RunGrows(run, text[lo..i], text[i]);
    assert text[lo..i + 1] == text[lo..i] + [text[i]];
  }

  /** Filing the open run when its stretch ends. */
  lemma RunFiled(runs: seq<Run>, scope: Scope, text: seq<Line>, at: seq<Stretch>, run: Run, s: Stretch)
    requires RunsUpTo(runs, scope, text, at, s.lo) && IsOpen(run, scope, text, s.lo, s.hi)
    requires run.spans != [] && (s.hi < |text| ==> !Delivered(scope, text[s.hi]))
    ensures RunsUpTo(runs + [run], scope, text, at + [s], s.hi + 1)
  {
    assert IsRunOf(run, scope, text, s);
    var at' := at + [s];
    assert at'[|at|] == s;
    forall i | 0 <= i < |text| && i < s.hi + 1 && Delivered(scope, text[i]) ensures InStretch(at', i) {
      if i < s.lo {
        assert InStretch(at, i);
        var r :| 0 <= r < |at| && at[r].lo <= i < at[r].hi;
        assert at'[r] == at[r];
      } else {
        assert at'[|at|].lo <= i < at'[|at|].hi;
      }
    }
    forall r | 0 <= r < |at'| ensures IsRunOf((runs + [run])[r], scope, text, at'[r]) && at'[r].hi < s.hi + 1 {
      if r < |at| {
        assert at'[r] == at[r] && (runs + [run])[r] == runs[r];
      }
    }
  }

  lemma OpenEmpty(scope: Scope, text: seq<Line>, lo: nat)
    requires lo <= |text| && (lo > 0 ==> !Delivered(scope, text[lo - 1]))
    ensures IsOpen(Run("", []), scope, text, lo, lo)
  {
    assert text[lo..lo] == [];
  }

  /** An undelivered segment ends the open run; an empty one is not filed. */
  lemma Flushed(runs: seq<Run>, scope: Scope, text: seq<Line>, at: seq<Stretch>, run: Run, lo: nat, i: nat)
    returns (at': seq<Stretch>)
    requires RunsUpTo(runs, scope, text, at, lo) && IsOpen(run, scope, text, lo, i)
    requires i < |text| ==> !Delivered(scope, text[i])
    ensures RunsUpTo(if run.spans != [] then runs + [run] else runs, scope, text, at', i + 1)
  {
    if run.spans != [] {
      RunFiled(runs, scope, text, at, run, Stretch(lo, i));
      at' := at + [Stretch(lo, i)];
    } else {
      at' := at;
      assert lo == i;
      assert forall j | 0 <= j < |text| && j < i + 1 && Delivered(scope, text[j]) :: j < lo;
    }
  }

  lemma NothingFiled(scope: Scope, text: seq<Line>)
    ensures RunsUpTo([], scope, text, [], 0)
  {
  }

  method NewIndex(scope: Scope, text: seq<Line>) returns (idx: QuoteIndex)
    ensures IsIndex(idx, scope, text)
  {
    hide RunsUpTo, IsOpen, Extended, Delivered;
    var originals: map<string, string>, runs: seq<Run>, run := map[], [], Run("", []);
    ghost var at: seq<Stretch>, lo := [], 0;
    OpenEmpty(scope, text, 0);
    NothingFiled(scope, text);
    for i := 0 to |text|
      invariant originals == Originals(scope, text, i)
      invariant IsOpen(run, scope, text, lo, i)
      invariant RunsUpTo(runs, scope, text, at, lo)
    {
      if !Delivered(scope, text[i]) {
        at := Flushed(runs, scope, text, at, run, lo, i);
        if run.spans != [] {
          runs := runs + [run];
        }
        run, lo := Run("", []), i + 1;
        OpenEmpty(scope, text, lo);
        continue;
      }
      originals := Recorded(originals, text[i]);
      OpenGrows(run, scope, text, lo, i);
      run := Extended(run, text[i].text, text[i].alias);
    }
    at := Flushed(runs, scope, text, at, run, lo, |text|);
    if run.spans != [] {
      runs := runs + [run];
    }
    assert RunsAre(runs, scope, text, at);
    idx := QuoteIndex(originals, runs);
  }

  // ----- binding one quote

  /** The quote occurs in the delivered runs at this place and nowhere else. */
  ghost predicate OnlyAt(runs: seq<Run>, quote: string, r: int, at: int) {
    && 0 <= r < |runs| && OccursAt(runs[r].text, quote, at)
    && forall r', at' :: 0 <= r' < |runs| && OccursAt(runs[r'].text, quote, at') ==> r' == r && at' == at
  }

  function Max(a: int, b: int): int { if a < b then b else a }

  function Min(a: int, b: int): int { if a < b then a else b }

  /** The part of `text[at..end]` that lies in one span, if any. */
  function SpanPart(text: string, at: nat, end: nat, span: Span): seq<Quote>
    requires at <= end <= |text|
  {
    var lo, hi := Max(at, span.start), Min(end, span.end);
    if lo < hi then [Quote(span.alias, text[lo..hi])] else []
  }

  function PartsIn(text: string, at: nat, end: nat, spans: seq<Span>): seq<Quote>
    requires at <= end <= |text|
  {
    if spans == [] then [] else SpanPart(text, at, end, spans[0]) + PartsIn(text, at, end, spans[1..])
  }

  /** Parts are trimmed, and blank ones dropped. */
  function Cleaned(parts: seq<Quote>): seq<Quote> {
    if parts == [] then []
    else
      var rest, part := Cleaned(parts[1..]), TrimSpace(parts[0].quote);
      if part == "" then rest else [Quote(parts[0].sourceId, part)] + rest
  }

  /** The binding rule, stated without the search. */
  ghost function BindOutcome(idx: QuoteIndex, q: Quote): Binding {
    var quote := Normalize(q.quote);
    if q.sourceId !in idx.originals || quote == "" then Rejected
    else if Contains(idx.originals[q.sourceId], quote) then Kept(q)
    else SearchOutcome(idx.runs, quote)
  }

  ghost function SearchOutcome(runs: seq<Run>, quote: string): Binding {
    if exists r, at :: OnlyAt(runs, quote, r, at) then
      var r, at :| OnlyAt(runs, quote, r, at);
      var parts := Cleaned(PartsIn(runs[r].text, at, at + |quote|, runs[r].spans));
      if parts == [] then Rejected else Rebound(parts)
    else Rejected
  }

  lemma {:induction false} PartsAppend(text: string, at: nat, end: nat, spans: seq<Span>, last: Span)
    requires at <= end <= |text|
    ensures PartsIn(text, at, end, spans + [last]) == PartsIn(text, at, end, spans) + SpanPart(text, at, end, last)
  {
    if spans != [] {
      assert (spans + [last])[1..] == spans[1..] + [last];
      PartsAppend(text, at, end, spans[1..], last);
    } else {
      assert [last][1..] == [];
    }
  }

  lemma {:induction false} CleanedAppend(front: seq<Quote>, back: seq<Quote>)
    ensures Cleaned(front + back) == Cleaned(front) + Cleaned(back)
  {
    if front == [] {
      assert front + back == back;
    } else {
      assert (front + back)[1..] == front[1..] + back;
      CleanedAppend(front[1..], back);
    }
  }

  lemma PartsStep(text: string, at: nat, end: nat, spans: seq<Span>, k: nat)
    requires at <= end <= |text| && k < |spans|
    ensures Cleaned(PartsIn(text, at, end, spans[..k + 1]))
      == Cleaned(PartsIn(text, at, end, spans[..k])) + Cleaned(SpanPart(text, at, end, spans[k]))
  {
    assert spans[..k + 1] == spans[..k] + [spans[k]];
    PartsAppend(text, at, end, spans[..k], spans[k]);
    CleanedAppend(PartsIn(text, at, end, spans[..k]), SpanPart(text, at, end, spans[k]));
  }

  method Parts(text: string, at: nat, end: nat, spans: seq<Span>) returns (bound: seq<Quote>)
    requires at <= end <= |text|
    ensures bound == Cleaned(PartsIn(text, at, end, spans))
  {
    bound := [];
    for k := 0 to |spans|
      invariant bound == Cleaned(PartsIn(text, at, end, spans[..k]))
    {
      PartsStep(text, at, end, spans, k);
      bound := bound + Cleaned(SpanPart(text, at, end, spans[k]));
    }
    assert spans[..|spans|] == spans;
  }

  method Bind(idx: QuoteIndex, q: Quote) returns (b: Binding)
    ensures b == BindOutcome(idx, q)
  {
    if q.sourceId !in idx.originals {
      return Rejected;
    }
    var original, quote := idx.originals[q.sourceId], Normalize(q.quote);
    if quote == "" {
      return Rejected;
    }
    var inPlace := FirstFrom(original, quote, 0);
    assert inPlace >= 0 <==> Contains(original, quote);
    if inPlace >= 0 {
      return Kept(q);
    }
    b := SearchRuns(idx.runs, quote);
  }

  /** The inner loop: the occurrences within one run, given up at the second. */
  method Occurrences(text: string, quote: string) returns (matches: nat, found: int)
    requires quote != ""
    ensures matches == 0 <==> !Contains(text, quote)
    ensures matches == 1 <==> OccursAt(text, quote, found) && forall at :: OccursAt(text, quote, at) ==> at == found
    ensures matches > 1 ==> exists at, at' :: at != at' && OccursAt(text, quote, at) && OccursAt(text, quote, at')
  {
    matches, found := 0, -1;
    var offset := 0;
    while offset < |text|
      invariant 0 <= offset && matches <= 1
      invariant matches == 1 ==> OccursAt(text, quote, found) && found < offset
      invariant matches == 0 ==> found == -1
      invariant forall at :: at < offset && OccursAt(text, quote, at) ==> matches == 1 && at == found
    {
      var at := FirstFrom(text, quote, offset);
      if at < 0 {
        break;
      }
      matches := matches + 1;
      if matches > 1 {
        assert found != at;
        return;
      }
      found, offset := at, at + 1;
    }
    assert forall at :: OccursAt(text, quote, at) ==> matches == 1 && at == found;
  }

  ghost predicate OnlySoFar(runs: seq<Run>, quote: string, n: nat, matches: nat, r: int, at: int)
    requires n <= |runs|
  {
    && (matches == 1 ==> 0 <= r < n && OccursAt(runs[r].text, quote, at))
    && forall r', at' :: 0 <= r' < n && OccursAt(runs[r'].text, quote, at') ==> matches == 1 && r' == r && at' == at
  }

  lemma TwoPlaces(runs: seq<Run>, quote: string, r: int, at: int, r': int, at': int)
    requires 0 <= r < |runs| && 0 <= r' < |runs| && (r != r' || at != at')
    requires OccursAt(runs[r].text, quote, at) && OccursAt(runs[r'].text, quote, at')
    ensures forall s, bt :: !OnlyAt(runs, quote, s, bt)
  {
  }

  lemma OutcomeAt(runs: seq<Run>, quote: string, r: int, at: int)
    requires OnlyAt(runs, quote, r, at)
    ensures SearchOutcome(runs, quote) ==
      var parts := Cleaned(PartsIn(runs[r].text, at, at + |quote|, runs[r].spans));
      if parts == [] then Rejected else Rebound(parts)
  {
    forall s, bt | OnlyAt(runs, quote, s, bt) ensures s == r && bt == at {
      assert OccursAt(runs[s].text, quote, bt);
    }
  }

  lemma SoFarExtends(runs: seq<Run>, quote: string, r: nat, matches: nat, mr: int, mat: int, n: nat, at: int)
    requires r < |runs| && OnlySoFar(runs, quote, r, matches, mr, mat)
    requires matches + n <= 1 && (n == 0 <==> !Contains(runs[r].text, quote))
    requires n == 1 <==> OccursAt(runs[r].text, quote, at) && forall at' :: OccursAt(runs[r].text, quote, at') ==> at' == at
    ensures if n == 1 then OnlySoFar(runs, quote, r + 1, 1, r, at) else OnlySoFar(runs, quote, r + 1, matches, mr, mat)
  {
  }

  lemma SoFarDecides(runs: seq<Run>, quote: string, matches: nat, r: int, at: int)
    requires OnlySoFar(runs, quote, |runs|, matches, r, at) && matches <= 1
    ensures matches == 1 ==> OnlyAt(runs, quote, r, at)
    ensures matches == 0 ==> SearchOutcome(runs, quote) == Rejected
  {
  }

  /** Counts the occurrences over all runs; a second one ends the search. */
  method SearchRuns(runs: seq<Run>, quote: string) returns (b: Binding)
    requires quote != ""
    ensures b == SearchOutcome(runs, quote)
  {
    hide SearchOutcome, Contains, PartsIn, Cleaned, OnlyAt;
    var matches: nat, bound := 0, [];
    ghost var mr, mat := 0, 0;
    for r := 0 to |runs|
      invariant matches <= 1 && OnlySoFar(runs, quote, r, matches, mr, mat)
      invariant matches == 1 ==> bound == Cleaned(PartsIn(runs[mr].text, mat, mat + |quote|, runs[mr].spans))
    {
      var n, at := Occurrences(runs[r].text, quote);
      if matches + n > 1 {
        SecondRejects(runs, quote, r, matches, mr, mat, n, at);
        return Rejected;
      }
      SoFarExtends(runs, quote, r, matches, mr, mat, n, at);
      if n == 1 {
        matches, mr, mat := 1, r, at;
        bound := Parts(runs[r].text, at, at + |quote|, runs[r].spans);
      }
    }
    SoFarDecides(runs, quote, matches, mr, mat);
    if matches == 1 {
      OutcomeAt(runs, quote, mr, mat);
      return if bound == [] then Rejected else Rebound(bound);
    }
    return Rejected;
  }

  lemma SecondRejects(runs: seq<Run>, quote: string, r: nat, matches: nat, mr: int, mat: int, n: nat, at: int)
    requires r < |runs| && OnlySoFar(runs, quote, r, matches, mr, mat) && matches <= 1 && matches + n > 1
    requires n == 1 ==> OccursAt(runs[r].text, quote, at)
    requires n > 1 ==> exists a, a' :: a != a' && OccursAt(runs[r].text, quote, a) && OccursAt(runs[r].text, quote, a')
    ensures SearchOutcome(runs, quote) == Rejected
  {
    if n > 1 {
      var a, a' :| a != a' && OccursAt(runs[r].text, quote, a) && OccursAt(runs[r].text, quote, a');
      TwoPlaces(runs, quote, r, a, r, a');
    } else {
      TwoPlaces(runs, quote, mr, mat, r, at);
    }
  }

  // ----- what a rebinding proves

  function QuoteTexts(parts: seq<Quote>): (out: seq<string>)
    ensures |out| == |parts| && forall i | 0 <= i < |parts| :: out[i] == parts[i].quote
  {
    seq(|parts|, i requires 0 <= i < |parts| => parts[i].quote)
  }

  /** The parts quote consecutive segments, each verbatim from its own segment, and read
      together they are the quote. */
  ghost predicate Resolves(of: seq<Line>, first: nat, parts: seq<Quote>, quote: string) {
    && parts != [] && first + |parts| <= |of|
    && (forall k {:trigger parts[k]} | 0 <= k < |parts| ::
          parts[k].sourceId == of[first + k].alias && parts[k].quote != "" && Normalized(parts[k].quote)
          && Contains(of[first + k].text, parts[k].quote))
    && Join(QuoteTexts(parts)) == quote
  }

  lemma NormalizedPart(s: string, lo: nat, hi: nat)
    requires Normalized(s) && lo < hi <= |s| && !IsSpace(s[lo]) && !IsSpace(s[hi - 1])
    ensures Normalized(s[lo..hi]) && TrimSpace(s[lo..hi]) == s[lo..hi]
  {
    var part := s[lo..hi];
    assert part[0] == s[lo] && part[|part| - 1] == s[hi - 1];
    forall i | 0 <= i < |part| && IsSpace(part[i])
      ensures part[i] == ' ' && 0 < i < |part| - 1 && !IsSpace(part[i + 1])
    {
      assert part[i] == s[lo + i] && (i + 1 < |part| ==> part[i + 1] == s[lo + i + 1]);
    }
  }

  /** `PartsIn` over the spans of a run, following its segments. */
  function PartsAlong(text: string, at: nat, end: nat, of: seq<Line>, base: nat): seq<Quote>
    requires at <= end <= |text|
  {
    if of == [] then []
    else
      var rest := PartsAlong(text, at, end, of[1..], base + |of[0].text| + 1);
      var lo, hi := Max(at, base), Min(end, base + |of[0].text|);
      if lo < hi then [Quote(of[0].alias, text[lo..hi])] + rest else rest
  }

  lemma {:induction false} PartsFollowSegments(text: string, at: nat, end: nat, of: seq<Line>, base: nat)
    requires at <= end <= |text|
    ensures PartsIn(text, at, end, SpansFrom(of, base)) == PartsAlong(text, at, end, of, base)
  {
    if of != [] {
      PartsFollowSegments(text, at, end, of[1..], base + |of[0].text| + 1);
      assert SpansFrom(of, base)[1..] == SpansFrom(of[1..], base + |of[0].text| + 1);
    }
  }

  lemma {:induction false} NothingAfter(text: string, at: nat, end: nat, of: seq<Line>, base: nat)
    requires at <= end <= |text| && end <= base
    ensures PartsAlong(text, at, end, of, base) == []
  {
    if of != [] {
      NothingAfter(text, at, end, of[1..], base + |of[0].text| + 1);
    }
  }

  lemma {:induction false} OnlyEndMatters(text: string, at: nat, from: nat, end: nat, of: seq<Line>, base: nat)
    requires at <= from <= base && from <= end <= |text|
    ensures PartsAlong(text, at, end, of, base) == PartsAlong(text, from, end, of, base)
  {
    if of != [] {
      OnlyEndMatters(text, at, from, end, of[1..], base + |of[0].text| + 1);
    }
  }

  /** From `base` on the text holds these segments one after the other, separated by blanks. */
  ghost predicate LaidOut(text: string, of: seq<Line>, base: nat) {
    if of == [] then base == |text| + 1
    else
      var next := base + |of[0].text| + 1;
      && OccursAt(text, of[0].text, base) && Normalized(of[0].text)
      && (|of| > 1 ==> OccursAt(text, " ", next - 1))
      && LaidOut(text, of[1..], next)
  }

  lemma {:induction false} RunIsLaidOut(text: string, of: seq<Line>, base: nat)
    requires of != [] && base <= |text| && text[base..] == Join(Pieces(of))
    requires forall i | 0 <= i < |of| :: Normalized(of[i].text)
    ensures LaidOut(text, of, base)
  {
    hide Normalized;
    var n := |of[0].text|;
    var next, s := base + n + 1, text[base..];
    assert Pieces(of)[1..] == Pieces(of[1..]);
    assert s[..n] == of[0].text;
    assert text[base..base + n] == s[..n];
    if |of| > 1 {
      assert s == of[0].text + " " + Join(Pieces(of[1..]));
      assert s[n..n + 1] == " " && s[n + 1..] == Join(Pieces(of[1..]));
      SliceOfDrop(text, base, n, n + 1);
      DropOfDrop(text, base, n + 1);
      RunIsLaidOut(text, of[1..], next);
    }
  }

  /** An occurrence, cut at one of its positions. */
  lemma SplitOccurrence(text: string, quote: string, at: nat, k: nat)
    requires OccursAt(text, quote, at) && k < |quote|
    ensures OccursAt(text, quote[..k], at) && OccursAt(text, quote[k + 1..], at + k + 1)
  {
    var s := text[at..at + |quote|];
    assert s[..k] == text[at..at + k] && s[k + 1..] == text[at + k + 1..at + |quote|];
  }

  lemma OccurringChar(text: string, quote: string, at: nat, k: nat)
    requires OccursAt(text, quote, at) && k < |quote|
    ensures text[at + k] == quote[k]
  {
    assert text[at..at + |quote|][k] == text[at + k];
  }

  lemma OccursWithin(text: string, head: string, base: nat, part: string, at: nat)
    requires OccursAt(text, head, base)
    requires OccursAt(text, part, at) && base <= at && at + |part| <= base + |head|
    ensures OccursAt(head, part, at - base)
  {
    SliceOfSlice(text, base, base + |head|, at - base, at - base + |part|);
  }

  /** A blank inside a normalized quote separates two normalized quotes. */
  lemma SplitQuote(quote: string, k: nat)
    requires Normalized(quote) && k < |quote| && IsSpace(quote[k])
    ensures var front, back := quote[..k], quote[k + 1..];
      front != "" && back != "" && Normalized(front) && Normalized(back)
  {
    assert !IsSpace(quote[0]) && !IsSpace(quote[|quote| - 1]) && !IsSpace(quote[k + 1]);
    assert !IsSpace(quote[k - 1]);
    NormalizedPart(quote, 0, k);
    NormalizedPart(quote, k + 1, |quote|);
    assert quote[0..k] == quote[..k] && quote[k + 1..|quote|] == quote[k + 1..];
  }

  lemma JoinedAtBlank(quote: string, k: nat)
    requires Normalized(quote) && k < |quote| && IsSpace(quote[k])
    ensures quote[..k] + " " + quote[k + 1..] == quote
  {
  }

  /** Parts that resolve a quote need no cleaning. */
  lemma {:induction false} CleanAlready(parts: seq<Quote>)
    requires forall i | 0 <= i < |parts| :: parts[i].quote != "" && Normalized(parts[i].quote)
    ensures Cleaned(parts) == parts
  {
    if parts != [] {
      var s := parts[0].quote;
      assert !IsSpace(s[0]) && !IsSpace(s[|s| - 1]);
      CleanAlready(parts[1..]);
    }
  }

  lemma ResolvesOne(of: seq<Line>, quote: string, k: int)
    requires of != [] && quote != "" && Normalized(quote) && OccursAt(of[0].text, quote, k)
    ensures Resolves(of, 0, [Quote(of[0].alias, quote)], quote)
  {
    assert QuoteTexts([Quote(of[0].alias, quote)]) == [quote];
  }

  lemma ResolvesMore(of: seq<Line>, front: string, k: int, parts: seq<Quote>, back: string)
    requires |of| > 1 && front != "" && Normalized(front) && OccursAt(of[0].text, front, k)
    requires Resolves(of[1..], 0, parts, back)
    ensures Resolves(of, 0, [Quote(of[0].alias, front)] + parts, front + " " + back)
  {
    var all := [Quote(of[0].alias, front)] + parts;
    assert QuoteTexts(all)[1..] == QuoteTexts(parts);
    forall i | 0 <= i < |all|
      ensures all[i].sourceId == of[0 + i].alias && all[i].quote != "" && Normalized(all[i].quote)
        && Contains(of[0 + i].text, all[i].quote)
    {
      if i > 0 {
        assert all[i] == parts[i - 1] && of[1..][0 + (i - 1)] == of[i];
      }
    }
  }

  lemma ResolvesLater(of: seq<Line>, first: nat, parts: seq<Quote>, quote: string)
    requires of != [] && Resolves(of[1..], first, parts, quote)
    ensures Resolves(of, first + 1, parts, quote)
  {
    forall k {:trigger parts[k]} | 0 <= k < |parts| ensures of[first + 1 + k] == of[1..][first + k] {
    }
  }

  lemma StopAtHead(text: string, at: nat, end: nat, of: seq<Line>, base: nat, quote: string)
    requires of != [] && base <= at && OccursAt(text, quote, at) && end == at + |quote| <= base + |of[0].text|
    requires quote != "" && Normalized(quote)
    ensures PartsAlong(text, at, end, of, base) == [Quote(of[0].alias, quote)]
  {
    NothingAfter(text, at, end, of[1..], base + |of[0].text| + 1);
  }

  lemma HeadThenRest(text: string, at: nat, end: nat, of: seq<Line>, base: nat, front: string)
    requires of != [] && base <= at && at + |front| == base + |of[0].text| < end <= |text|
    requires OccursAt(text, front, at) && front != "" && Normalized(front)
    ensures var next := base + |of[0].text| + 1;
      PartsAlong(text, at, end, of, base) == [Quote(of[0].alias, front)] + PartsAlong(text, next, end, of[1..], next)
  {
    OnlyEndMatters(text, at, base + |of[0].text| + 1, end, of[1..], base + |of[0].text| + 1);
  }

  /** The occurrence starts in the head and runs on: a blank divides it. */
  lemma DividedAtBlank(text: string, of: seq<Line>, base: nat, at: nat, quote: string, k: nat)
    requires LaidOut(text, of, base) && of != []
    requires base <= at && OccursAt(text, quote, at) && k == base + |of[0].text| - at && 0 < k < |quote|
    ensures |of| > 1 && IsSpace(quote[k])
  {
    assert |of| > 1;
    OccurringChar(text, quote, at, k);
    OccurringChar(text, " ", base + |of[0].text|, 0);
  }

  lemma CutFront(text: string, of: seq<Line>, base: nat, at: nat, quote: string, k: nat)
    requires LaidOut(text, of, base) && of != []
    requires Normalized(quote) && base <= at && OccursAt(text, quote, at)
    requires k == base + |of[0].text| - at && 0 < k < |quote|
    ensures |of| > 1 && OccursAt(of[0].text, quote[..k], at - base) && OccursAt(text, quote[..k], at) && Normalized(quote[..k])
    ensures OccursAt(text, quote[k + 1..], base + |of[0].text| + 1) && Normalized(quote[k + 1..]) && quote[k + 1..] != ""
    ensures LaidOut(text, of[1..], base + |of[0].text| + 1) && at + |quote| <= |text|
  {
    hide Normalized, IsSpace;
    DividedAtBlank(text, of, base, at, quote, k);
    SplitOccurrence(text, quote, at, k);
    OccursWithin(text, of[0].text, base, quote[..k], at);
    SplitQuote(quote, k);
  }

  lemma JoinedBack(text: string, of: seq<Line>, base: nat, at: nat, quote: string, k: nat)
    requires LaidOut(text, of, base) && of != [] && Normalized(quote)
    requires base <= at && OccursAt(text, quote, at) && k == base + |of[0].text| - at && 0 < k < |quote|
    ensures quote[..k] + " " + quote[k + 1..] == quote
  {
    DividedAtBlank(text, of, base, at, quote, k);
    JoinedAtBlank(quote, k);
  }

  /** A quote begins with a letter, and no segment boundary does. */
  lemma NotAtBlank(text: string, of: seq<Line>, base: nat, quote: string, at: nat)
    requires LaidOut(text, of, base) && of != [] && Normalized(quote) && quote != "" && OccursAt(text, quote, at)
    ensures at != base + |of[0].text|
  {
    OccurringChar(text, quote, at, 0);
    assert !IsSpace(quote[0]);
    if |of| > 1 {
      OccurringChar(text, " ", base + |of[0].text|, 0);
    }
  }

  lemma CutInside(text: string, of: seq<Line>, base: nat, at: nat, quote: string)
    requires LaidOut(text, of, base) && of != [] && Normalized(quote) && quote != ""
    requires base <= at && OccursAt(text, quote, at) && at + |quote| <= base + |of[0].text|
    ensures Resolves(of, 0, PartsAlong(text, at, at + |quote|, of, base), quote)
  {
    hide Normalized, IsSpace;
    OccursWithin(text, of[0].text, base, quote, at);
    ResolvesOne(of, quote, at - base);
    StopAtHead(text, at, at + |quote|, of, base, quote);
  }

  /** Splitting one occurrence along the spans of its run. */
  lemma {:induction false} Cut(text: string, of: seq<Line>, base: nat, at: nat, quote: string) returns (first: nat)
    requires LaidOut(text, of, base)
    requires Normalized(quote) && quote != "" && base <= at && OccursAt(text, quote, at)
    ensures of != [] && Resolves(of, first, PartsAlong(text, at, at + |quote|, of, base), quote)
    ensures at < base + |of[0].text| ==> first == 0
    decreases |of|, 1
  {
    assert of != [];
    NotAtBlank(text, of, base, quote, at);
    if at + |quote| <= base + |of[0].text| {
      CutInside(text, of, base, at, quote);
      first := 0;
    } else if at > base + |of[0].text| {
      first := CutLater(text, of, base, at, quote);
    } else {
      CutAcross(text, of, base, at, quote, base + |of[0].text| - at);
      JoinedBack(text, of, base, at, quote, base + |of[0].text| - at);
      first := 0;
    }
  }

  lemma {:induction false} CutLater(text: string, of: seq<Line>, base: nat, at: nat, quote: string) returns (first: nat)
    requires LaidOut(text, of, base) && of != [] && Normalized(quote) && quote != ""
    requires OccursAt(text, quote, at) && base + |of[0].text| < at
    ensures Resolves(of, first, PartsAlong(text, at, at + |quote|, of, base), quote)
    decreases |of|, 0
  {
    var next := base + |of[0].text| + 1;
    var later := Cut(text, of[1..], next, at, quote);
    var parts := PartsAlong(text, at, at + |quote|, of[1..], next);
    assert PartsAlong(text, at, at + |quote|, of, base) == parts;
    ResolvesLater(of, later, parts, quote);
    first := later + 1;
  }

  lemma {:induction false} CutAcross(text: string, of: seq<Line>, base: nat, at: nat, quote: string, k: nat)
    requires LaidOut(text, of, base) && of != []
    requires Normalized(quote) && base <= at && OccursAt(text, quote, at)
    requires k == base + |of[0].text| - at && 0 < k < |quote|
    ensures Resolves(of, 0, PartsAlong(text, at, at + |quote|, of, base), quote[..k] + " " + quote[k + 1..])
    decreases |of|, 0
  {
    hide LaidOut, PartsAlong, Resolves, Normalized, OccursAt, IsSpace;
    var next := base + |of[0].text| + 1;
    CutFront(text, of, base, at, quote, k);
    var front, back := quote[..k], quote[k + 1..];
    NotAtBlank(text, of[1..], next, back, next);
    var first := Cut(text, of[1..], next, next, back);
    assert next + |back| == at + |quote|;
    CutRest(text, of, base, at, next + |back|, front, back);
  }

  lemma CutRest(text: string, of: seq<Line>, base: nat, at: nat, end: nat, front: string, back: string)
    requires |of| > 1 && base <= at && at + |front| == base + |of[0].text| < end <= |text|
    requires OccursAt(text, front, at) && front != "" && Normalized(front) && OccursAt(of[0].text, front, at - base)
    requires Resolves(of[1..], 0, PartsAlong(text, base + |of[0].text| + 1, end, of[1..], base + |of[0].text| + 1), back)
    ensures Resolves(of, 0, PartsAlong(text, at, end, of, base), front + " " + back)
  {
    var next := base + |of[0].text| + 1;
    HeadThenRest(text, at, end, of, base, front);
    ResolvesMore(of, front, at - base, PartsAlong(text, next, end, of[1..], next), back);
  }

  /** MAIN RESULT: a rebound quote occurs at exactly one place in the delivered runs, and its
      parts are consecutive delivered segments, each quoted verbatim, that read as the quote. */
  ghost predicate RebindsExactly(scope: Scope, text: seq<Line>, idx: QuoteIndex, quote: string, parts: seq<Quote>, first: nat) {
    && OccursOnce(idx, quote)
    && Resolves(text, first, parts, quote)
    && forall k | first <= k < first + |parts| :: Delivered(scope, text[k])
  }

  lemma RebindingIsExact(scope: Scope, text: seq<Segment>, idx: QuoteIndex, q: Quote, parts: seq<Quote>) returns (first: nat)
    requires IsIndex(idx, scope, Lines(text)) && BindOutcome(idx, q) == Rebound(parts)
    ensures RebindsExactly(scope, Lines(text), idx, Normalize(q.quote), parts, first)
  {
    NormalizeIsNormalized(q.quote);
    LinesNormalized(text);
    var r, at, found := SearchResolves(scope, Lines(text), idx, Normalize(q.quote));
    first := found;
  }

  lemma LinesNormalized(text: seq<Segment>)
    ensures forall i | 0 <= i < |text| :: Normalized(Lines(text)[i].text)
  {
    forall i | 0 <= i < |text| ensures Normalized(Lines(text)[i].text) {
      NormalizeIsNormalized(text[i].text);
    }
  }

  /** Wherever a quote occurs just once, the search finds it and its parts resolve it. */
  lemma SearchResolves(scope: Scope, text: seq<Line>, idx: QuoteIndex, quote: string) returns (r: int, at: int, first: nat)
    requires IsIndex(idx, scope, text) && forall i | 0 <= i < |text| :: Normalized(text[i].text)
    requires Normalized(quote) && quote != "" && OccursOnce(idx, quote)
    ensures OnlyAt(idx.runs, quote, r, at) && SearchOutcome(idx.runs, quote).Rebound?
    ensures RebindsExactly(scope, text, idx, quote, SearchOutcome(idx.runs, quote).parts, first)
  {
    r, at :| OnlyAt(idx.runs, quote, r, at);
    OutcomeAt(idx.runs, quote, r, at);
    var places :| RunsAre(idx.runs, scope, text, places);
    first := FoundInRun(scope, text, idx.runs[r], places[r], quote, at);
  }

  /** An occurrence in one run resolves, and what the search returns for it needs no cleaning. */
  lemma FoundInRun(scope: Scope, text: seq<Line>, run: Run, s: Stretch, quote: string, at: int) returns (first: nat)
    requires IsRunOf(run, scope, text, s) && OccursAt(run.text, quote, at)
    requires Normalized(quote) && quote != "" && forall i | 0 <= i < |text| :: Normalized(text[i].text)
    ensures var parts := Cleaned(PartsIn(run.text, at, at + |quote|, run.spans));
      parts != [] && Resolves(text, first, parts, quote) && s.lo <= first && first + |parts| <= s.hi
  {
    hide Resolves, Normalized, Cleaned, PartsIn, SpansFrom, Join, Pieces, Delivered;
    var of := text[s.lo..s.hi];
    assert forall i | 0 <= i < |of| :: of[i] == text[s.lo + i];
    var within := FoundAmong(run.text, text[s.lo..s.hi], quote, at);
    ResolvesInWhole(text, s.lo, s.hi, within, Cleaned(PartsIn(run.text, at, at + |quote|, run.spans)), quote);
    first := s.lo + within;
  }

  lemma FoundAmong(text: string, of: seq<Line>, quote: string, at: int) returns (within: nat)
    requires text == Join(Pieces(of)) && of != [] && OccursAt(text, quote, at)
    requires Normalized(quote) && quote != "" && forall i | 0 <= i < |of| :: Normalized(of[i].text)
    ensures var parts := Cleaned(PartsIn(text, at, at + |quote|, SpansFrom(of, 0)));
      parts != [] && within + |parts| <= |of| && Resolves(of, within, parts, quote)
  {
    hide Normalized, Cleaned, PartsIn, PartsAlong, SpansFrom, LaidOut, Join, Pieces;
    assert text[0..] == text && at + |quote| <= |text|;
    RunIsLaidOut(text, of, 0);
    within := Cut(text, of, 0, at, quote);
    PartsFollowSegments(text, at, at + |quote|, of, 0);
    CleanAlready(PartsAlong(text, at, at + |quote|, of, 0));
  }

  lemma ResolvesInWhole(text: seq<Line>, lo: nat, hi: nat, within: nat, parts: seq<Quote>, quote: string)
    requires lo <= hi <= |text| && Resolves(text[lo..hi], within, parts, quote)
    ensures Resolves(text, lo + within, parts, quote)
  {
    forall k {:trigger parts[k]} | 0 <= k < |parts| ensures text[lo + within + k] == text[lo..hi][within + k] {
    }
  }

  /** A quote that names a delivered original fails to bind only when it is not there, and
      occurs nowhere or more than once in the runs. */
  lemma RejectionIsJustified(scope: Scope, text: seq<Segment>, idx: QuoteIndex, q: Quote)
    requires IsIndex(idx, scope, Lines(text))
    ensures BindOutcome(idx, q) == Rejected <==>
      || q.sourceId !in idx.originals || Normalize(q.quote) == ""
      || (!Contains(idx.originals[q.sourceId], Normalize(q.quote)) && !OccursOnce(idx, Normalize(q.quote)))
  {
    NormalizeIsNormalized(q.quote);
    LinesNormalized(text);
    if Normalize(q.quote) != "" && OccursOnce(idx, Normalize(q.quote)) {
      var r, at, first := SearchResolves(scope, Lines(text), idx, Normalize(q.quote));
    }
  }

  ghost predicate OccursOnce(idx: QuoteIndex, quote: string) {
    exists r, at :: OnlyAt(idx.runs, quote, r, at)
  }
}
