/** Binding every quote of a review report, the receipts it leaves, and the validators that
    read them (internal/domain/article_review_binding.go, article_review_evidence.go). */
module QuoteReports {
  import opened Text
  import opened QuoteBinding

  /** A finding with its evidence; its remaining fields travel unchanged in `finding`. */
  datatype Issue = Issue(evidenceQuotes: seq<Quote>, evidenceIds: seq<string>, finding: string)
  datatype Resolution = Resolution(issueId: string, evidenceQuotes: seq<Quote>)
  datatype Report = Report(issues: seq<Issue>, resolutions: seq<Resolution>)

  datatype Owner = OfIssue | OfResolution
  datatype Receipt = Receipt(owner: Owner, index: int, original: Quote, resolved: seq<Quote>)

  function Result(b: Binding): seq<Quote>
    requires !b.Rejected?
  {
    if b.Kept? then [b.quote] else b.parts
  }

  ghost predicate Bindable(idx: QuoteIndex, quotes: seq<Quote>) {
    forall q | q in quotes :: !BindOutcome(idx, q).Rejected?
  }

  ghost function BoundQuotes(idx: QuoteIndex, quotes: seq<Quote>): seq<Quote>
    requires Bindable(idx, quotes)
  {
    if quotes == [] then []
    else
      assert forall q | q in quotes[..|quotes| - 1] :: q in quotes;
      BoundQuotes(idx, quotes[..|quotes| - 1]) + Result(BindOutcome(idx, quotes[|quotes| - 1]))
  }

  /** One receipt for every quote that had to be rebound. */
  ghost function Receipts(idx: QuoteIndex, owner: Owner, index: int, quotes: seq<Quote>): seq<Receipt> {
    if quotes == [] then []
    else
      var q := quotes[|quotes| - 1];
      var b := BindOutcome(idx, q);
      Receipts(idx, owner, index, quotes[..|quotes| - 1])
      + if b.Rebound? then [Receipt(owner, index, q, b.parts)] else []
  }

  method BindQuotes(idx: QuoteIndex, owner: Owner, index: int, quotes: seq<Quote>)
    returns (ok: bool, out: seq<Quote>, receipts: seq<Receipt>)
    ensures ok <==> Bindable(idx, quotes)
    ensures ok ==> out == BoundQuotes(idx, quotes) && receipts == Receipts(idx, owner, index, quotes)
  {
    out, receipts := [], [];
    for i := 0 to |quotes|
      invariant Bindable(idx, quotes[..i])
      invariant out == BoundQuotes(idx, quotes[..i]) && receipts == Receipts(idx, owner, index, quotes[..i])
    {
      var b := Bind(idx, quotes[i]);
      if b.Rejected? {
        assert quotes[i] in quotes;
        return false, [], [];
      }
      assert quotes[..i + 1][..i] == quotes[..i];
      assert forall q | q in quotes[..i + 1] :: q in quotes[..i] || q == quotes[i];
      out := out + Result(b);
      if b.Rebound? {
        receipts := receipts + [Receipt(owner, index, quotes[i], b.parts)];
      }
    }
    assert quotes[..|quotes|] == quotes;
    ok := true;
  }

  /** `evidence_ids` gains the sources of rebound parts that it does not list yet. */
  function WithSources(ids: seq<string>, parts: seq<Quote>): (out: seq<string>)
    ensures ids <= out
    ensures forall p | p in parts :: p.sourceId in out
    ensures forall id | id in out :: id in ids || exists p :: p in parts && p.sourceId == id
  {
    if parts == [] then ids
    else
      var before := WithSources(ids, parts[..|parts| - 1]);
      var p := parts[|parts| - 1];
      assert forall x | x in parts :: x in parts[..|parts| - 1] || x == p;
      if p.sourceId in before then before else before + [p.sourceId]
  }

  function ResolvedParts(receipts: seq<Receipt>): seq<Quote> {
    if receipts == [] then [] else ResolvedParts(receipts[..|receipts| - 1]) + receipts[|receipts| - 1].resolved
  }

  ghost predicate ReportBindable(idx: QuoteIndex, report: Report) {
    && (forall i {:trigger report.issues[i]} | 0 <= i < |report.issues| :: Bindable(idx, report.issues[i].evidenceQuotes))
    && (forall i {:trigger report.resolutions[i]} | 0 <= i < |report.resolutions| :: Bindable(idx, report.resolutions[i].evidenceQuotes))
  }

  ghost function BoundIssue(idx: QuoteIndex, issue: Issue, i: int): Issue
    requires Bindable(idx, issue.evidenceQuotes)
  {
    Issue(BoundQuotes(idx, issue.evidenceQuotes),
          WithSources(issue.evidenceIds, ResolvedParts(Receipts(idx, OfIssue, i, issue.evidenceQuotes))),
          issue.finding)
  }

  ghost function BoundResolution(idx: QuoteIndex, resolution: Resolution): Resolution
    requires Bindable(idx, resolution.evidenceQuotes)
  {
    Resolution(resolution.issueId, BoundQuotes(idx, resolution.evidenceQuotes))
  }

  ghost function IssueReceipts(idx: QuoteIndex, issues: seq<Issue>, n: nat): seq<Receipt>
    requires n <= |issues|
  {
    if n == 0 then []
    else IssueReceipts(idx, issues, n - 1) + Receipts(idx, OfIssue, n - 1, issues[n - 1].evidenceQuotes)
  }

  ghost function ResolutionReceipts(idx: QuoteIndex, resolutions: seq<Resolution>, n: nat): seq<Receipt>
    requires n <= |resolutions|
  {
    if n == 0 then []
    else ResolutionReceipts(idx, resolutions, n - 1) + Receipts(idx, OfResolution, n - 1, resolutions[n - 1].evidenceQuotes)
  }

  /** The bound report differs from the reviewer's only in its quotes and evidence ids. */
  ghost predicate IsBound(idx: QuoteIndex, report: Report, bound: Report, receipts: seq<Receipt>) {
    && ReportBindable(idx, report)
    && |bound.issues| == |report.issues| && |bound.resolutions| == |report.resolutions|
    && (forall i {:trigger bound.issues[i]} | 0 <= i < |report.issues| :: bound.issues[i] == BoundIssue(idx, report.issues[i], i))
    && (forall i {:trigger bound.resolutions[i]} | 0 <= i < |report.resolutions| :: bound.resolutions[i] == BoundResolution(idx, report.resolutions[i]))
    && receipts == IssueReceipts(idx, report.issues, |report.issues|) + ResolutionReceipts(idx, report.resolutions, |report.resolutions|)
  }

  method BindReport(report: Report, idx: QuoteIndex) returns (ok: bool, bound: Report, receipts: seq<Receipt>)
    ensures ok <==> ReportBindable(idx, report)
    ensures ok ==> IsBound(idx, report, bound, receipts)
  {
    hide BindOutcome, BoundQuotes, Receipts, WithSources, ResolvedParts;
    var issues, resolutions := report.issues, report.resolutions;
    bound, receipts := report, [];
    for i := 0 to |issues|
      invariant |issues| == |report.issues|
      invariant forall j {:trigger report.issues[j]} | 0 <= j < i :: Bindable(idx, report.issues[j].evidenceQuotes)
      invariant forall j {:trigger issues[j]} | 0 <= j < i :: issues[j] == BoundIssue(idx, report.issues[j], j)
      invariant forall j {:trigger issues[j]} | i <= j < |issues| :: issues[j] == report.issues[j]
      invariant receipts == IssueReceipts(idx, report.issues, i)
    {
      var done, quotes, more := BindQuotes(idx, OfIssue, i, issues[i].evidenceQuotes);
      if !done {
        return false, report, [];
      }
      receipts := receipts + more;
      issues := issues[i := Issue(quotes, WithSources(issues[i].evidenceIds, ResolvedParts(more)), issues[i].finding)];
    }
    for i := 0 to |resolutions|
      invariant |resolutions| == |report.resolutions|
      invariant forall j {:trigger report.resolutions[j]} | 0 <= j < i :: Bindable(idx, report.resolutions[j].evidenceQuotes)
      invariant forall j {:trigger resolutions[j]} | 0 <= j < i :: resolutions[j] == BoundResolution(idx, report.resolutions[j])
      invariant forall j {:trigger resolutions[j]} | i <= j < |resolutions| :: resolutions[j] == report.resolutions[j]
      invariant receipts == IssueReceipts(idx, report.issues, |report.issues|) + ResolutionReceipts(idx, report.resolutions, i)
    {
      var done, quotes, more := BindQuotes(idx, OfResolution, i, resolutions[i].evidenceQuotes);
      if !done {
        return false, report, [];
      }
      receipts := receipts + more;
      resolutions := resolutions[i := Resolution(resolutions[i].issueId, quotes)];
    }
    ok, bound := true, Report(issues, resolutions);
  }

  // ----- the validators

  ghost predicate IsEvidence(originals: map<string, string>, q: Quote) {
    q.sourceId in originals && Normalize(q.quote) != "" && Contains(originals[q.sourceId], Normalize(q.quote))
  }

  method ValidateEvidenceQuotes(quotes: seq<Quote>, originals: map<string, string>) returns (valid: bool)
    ensures valid <==> forall q | q in quotes :: IsEvidence(originals, q)
  {
    for i := 0 to |quotes|
      invariant forall j | 0 <= j < i :: IsEvidence(originals, quotes[j])
    {
      var q := quotes[i];
      assert q in quotes;
      if q.sourceId !in originals || Normalize(q.quote) == "" {
        return false;
      }
      var at := FirstFrom(originals[q.sourceId], Normalize(q.quote), 0);
      assert at >= 0 <==> Contains(originals[q.sourceId], Normalize(q.quote));
      if at < 0 {
        return false;
      }
    }
    valid := true;
  }

  function QuotesAt(report: Report, owner: Owner, index: int): seq<Quote> {
    if owner.OfIssue? then
      if 0 <= index < |report.issues| then report.issues[index].evidenceQuotes else []
    else
      if 0 <= index < |report.resolutions| then report.resolutions[index].evidenceQuotes else []
  }

  /** The receipt can be recomputed from the originals, and the finding carries its parts. */
  ghost predicate ReceiptHolds(idx: QuoteIndex, report: Report, r: Receipt) {
    && BindOutcome(idx, r.original) == Rebound(r.resolved)
    && forall q | q in r.resolved :: q in QuotesAt(report, r.owner, r.index)
  }

  method ValidateQuoteBindings(report: Report, receipts: seq<Receipt>, idx: QuoteIndex) returns (valid: bool)
    ensures valid <==> forall r | r in receipts :: ReceiptHolds(idx, report, r)
  {
    for i := 0 to |receipts|
      invariant forall j | 0 <= j < i :: ReceiptHolds(idx, report, receipts[j])
    {
      var r := receipts[i];
      assert r in receipts;
      var b := Bind(idx, r.original);
      if b != Rebound(r.resolved) {
        return false;
      }
      var quotes := QuotesAt(report, r.owner, r.index);
      for k := 0 to |r.resolved|
        invariant forall m | 0 <= m < k :: r.resolved[m] in quotes
      {
        if r.resolved[k] !in quotes {
          assert r.resolved[k] in r.resolved;
          return false;
        }
      }
    }
    valid := true;
  }

  // ----- what binding guarantees the validators

  lemma {:induction false} ReceiptsAreHonest(idx: QuoteIndex, owner: Owner, index: int, quotes: seq<Quote>)
    requires Bindable(idx, quotes)
    ensures forall r | r in Receipts(idx, owner, index, quotes) ::
      r.owner == owner && r.index == index && BindOutcome(idx, r.original) == Rebound(r.resolved)
      && (forall q | q in r.resolved :: q in BoundQuotes(idx, quotes) && q in ResolvedParts(Receipts(idx, owner, index, quotes)))
  {
    if quotes != [] {
      var front, last := quotes[..|quotes| - 1], quotes[|quotes| - 1];
      assert forall q | q in front :: q in quotes;
      ReceiptsAreHonest(idx, owner, index, front);
      var all, before := Receipts(idx, owner, index, quotes), Receipts(idx, owner, index, front);
      if BindOutcome(idx, last).Rebound? {
        assert all[..|all| - 1] == before;
      } else {
        assert all == before;
      }
    }
  }

  lemma {:induction false} IssueReceiptsHold(idx: QuoteIndex, report: Report, bound: Report, receipts: seq<Receipt>, n: nat)
    requires IsBound(idx, report, bound, receipts) && n <= |report.issues|
    ensures forall r | r in IssueReceipts(idx, report.issues, n) :: ReceiptHolds(idx, bound, r)
  {
    hide BindOutcome, BoundQuotes, Receipts, WithSources, ResolvedParts;
    if n > 0 {
      IssueReceiptsHold(idx, report, bound, receipts, n - 1);
      ReceiptsAreHonest(idx, OfIssue, n - 1, report.issues[n - 1].evidenceQuotes);
      assert bound.issues[n - 1] == BoundIssue(idx, report.issues[n - 1], n - 1);
    }
  }

  lemma {:induction false} ResolutionReceiptsHold(idx: QuoteIndex, report: Report, bound: Report, receipts: seq<Receipt>, n: nat)
    requires IsBound(idx, report, bound, receipts) && n <= |report.resolutions|
    ensures forall r | r in ResolutionReceipts(idx, report.resolutions, n) :: ReceiptHolds(idx, bound, r)
  {
    hide BindOutcome, BoundQuotes, Receipts, WithSources, ResolvedParts;
    if n > 0 {
      ResolutionReceiptsHold(idx, report, bound, receipts, n - 1);
      ReceiptsAreHonest(idx, OfResolution, n - 1, report.resolutions[n - 1].evidenceQuotes);
      assert bound.resolutions[n - 1].evidenceQuotes == BoundQuotes(idx, report.resolutions[n - 1].evidenceQuotes);
    }
  }

  /** No delivered segment is identified by the alias of an earlier one. */
  ghost predicate AliasesAreFree(scope: Scope, text: seq<Line>) {
    forall i, j | 0 <= i < j < |text| && Delivered(scope, text[i]) && Delivered(scope, text[j]) :: text[j].id != text[i].alias
  }

  lemma {:induction false} AliasDenotes(scope: Scope, text: seq<Segment>, i: nat, n: nat)
    requires i < n <= |text| && AliasesAreFree(scope, Lines(text)) && Delivered(scope, Lines(text)[i])
    ensures var m := Originals(scope, Lines(text), n);
      Lines(text)[i].alias in m && m[Lines(text)[i].alias] == Lines(text)[i].text
  {
    hide Alias;
    if n > i + 1 {
      AliasDenotes(scope, text, i, n - 1);
      if Lines(text)[n - 1].alias == Lines(text)[i].alias {
        AliasInjective(n - 1, i);
      }
    }
  }

  /** Stored segments are identified by their snapshot and ordinal, so no alias is taken. */
  lemma StoredAliasesAreFree(scope: Scope, text: seq<Segment>)
    requires forall s | s in text :: IsSegmentId(s.id)
    ensures AliasesAreFree(scope, Lines(text))
  {
    hide IsSegmentId, Alias, Delivered, Normalize;
    var lines := Lines(text);
    forall i, j | 0 <= i < j < |lines| && Delivered(scope, lines[i]) && Delivered(scope, lines[j]) ensures lines[j].id != lines[i].alias {
      AliasIsNoSegmentId(i);
      assert text[j] in text;
    }
  }

  lemma KeptIsEvidence(idx: QuoteIndex, q: Quote)
    requires BindOutcome(idx, q).Kept?
    ensures BindOutcome(idx, q) == Kept(q) && IsEvidence(idx.originals, q)
  {
    hide Normalize, PartsIn, Cleaned;
  }

  lemma BoundIsEvidence(scope: Scope, text: seq<Segment>, idx: QuoteIndex, q: Quote)
    requires IsIndex(idx, scope, Lines(text)) && AliasesAreFree(scope, Lines(text)) && !BindOutcome(idx, q).Rejected?
    ensures forall p | p in Result(BindOutcome(idx, q)) :: IsEvidence(idx.originals, p)
  {
    hide BindOutcome, Originals, Alias, TrimSpace, Normalize, Lines, Contains;
    if BindOutcome(idx, q).Rebound? {
      var parts := BindOutcome(idx, q).parts;
      var first := RebindingIsExact(scope, text, idx, q, parts);
      forall k | 0 <= k < |parts| ensures IsEvidence(idx.originals, parts[k]) {
        NormalizeFixesNormalized(parts[k].quote);
        AliasDenotes(scope, text, first + k, |text|);
      }
    } else {
      KeptIsEvidence(idx, q);
    }
  }

  lemma {:induction false} BoundQuotesAreEvidence(scope: Scope, text: seq<Segment>, idx: QuoteIndex, quotes: seq<Quote>)
    requires IsIndex(idx, scope, Lines(text)) && AliasesAreFree(scope, Lines(text)) && Bindable(idx, quotes)
    ensures forall q | q in BoundQuotes(idx, quotes) :: IsEvidence(idx.originals, q)
  {
    if quotes != [] {
      var front, last := quotes[..|quotes| - 1], quotes[|quotes| - 1];
      assert forall q | q in front :: q in quotes;
      BoundQuotesAreEvidence(scope, text, idx, front);
      BoundIsEvidence(scope, text, idx, last);
    }
  }

  /** MAIN RESULT: a bound report satisfies every later check of its quotes. All receipts can be
      recomputed and are present in their findings; the sources of rebound parts are listed as
      evidence; and every quote of every finding and resolution is verbatim in its original. */
  lemma BoundReportIsAdmissible(scope: Scope, text: seq<Segment>, idx: QuoteIndex, report: Report, bound: Report, receipts: seq<Receipt>)
    requires IsIndex(idx, scope, Lines(text)) && IsBound(idx, report, bound, receipts)
    ensures forall r | r in receipts :: ReceiptHolds(idx, bound, r)
    ensures forall r | r in IssueReceipts(idx, report.issues, |report.issues|) ::
      0 <= r.index < |bound.issues| && forall q | q in r.resolved :: q.sourceId in bound.issues[r.index].evidenceIds
    ensures AliasesAreFree(scope, Lines(text)) ==>
      && (forall i, q | 0 <= i < |bound.issues| && q in bound.issues[i].evidenceQuotes :: IsEvidence(idx.originals, q))
      && (forall i, q | 0 <= i < |bound.resolutions| && q in bound.resolutions[i].evidenceQuotes :: IsEvidence(idx.originals, q))
  {
    IssueReceiptsHold(idx, report, bound, receipts, |report.issues|);
    ResolutionReceiptsHold(idx, report, bound, receipts, |report.resolutions|);
    SourcesAreListed(idx, report, bound, receipts, |report.issues|);
    if AliasesAreFree(scope, Lines(text)) {
      forall i | 0 <= i < |bound.issues| ensures forall q | q in bound.issues[i].evidenceQuotes :: IsEvidence(idx.originals, q) {
        BoundQuotesAreEvidence(scope, text, idx, report.issues[i].evidenceQuotes);
      }
      forall i | 0 <= i < |bound.resolutions| ensures forall q | q in bound.resolutions[i].evidenceQuotes :: IsEvidence(idx.originals, q) {
        BoundQuotesAreEvidence(scope, text, idx, report.resolutions[i].evidenceQuotes);
      }
    }
  }

  /** So every quote of a bound report over a stored transcript is verbatim in its original. */
  lemma StoredReportIsEvidence(scope: Scope, text: seq<Segment>, idx: QuoteIndex, report: Report, bound: Report, receipts: seq<Receipt>)
    requires forall s | s in text :: IsSegmentId(s.id)
    requires IsIndex(idx, scope, Lines(text)) && IsBound(idx, report, bound, receipts)
    ensures forall i, q | 0 <= i < |bound.issues| && q in bound.issues[i].evidenceQuotes :: IsEvidence(idx.originals, q)
    ensures forall i, q | 0 <= i < |bound.resolutions| && q in bound.resolutions[i].evidenceQuotes :: IsEvidence(idx.originals, q)
  {
    hide IsIndex, IsBound, IsEvidence, AliasesAreFree, IsSegmentId;
    StoredAliasesAreFree(scope, text);
    BoundReportIsAdmissible(scope, text, idx, report, bound, receipts);
  }

  lemma {:induction false} SourcesAreListed(idx: QuoteIndex, report: Report, bound: Report, receipts: seq<Receipt>, n: nat)
    requires IsBound(idx, report, bound, receipts) && n <= |report.issues|
    ensures forall r | r in IssueReceipts(idx, report.issues, n) ::
      0 <= r.index < |bound.issues| && forall q | q in r.resolved :: q.sourceId in bound.issues[r.index].evidenceIds
  {
    hide BindOutcome, BoundQuotes, Receipts, WithSources, ResolvedParts;
    if n > 0 {
      SourcesAreListed(idx, report, bound, receipts, n - 1);
      ReceiptsAreHonest(idx, OfIssue, n - 1, report.issues[n - 1].evidenceQuotes);
      assert bound.issues[n - 1] == BoundIssue(idx, report.issues[n - 1], n - 1);
    }
  }
}
