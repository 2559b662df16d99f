/** What the author language accepts, and what an accepted unit says: conditions on what was delivered and
    on the text itself (internal/investigator/article_loop_wire.go, `loopCanonicalSection`). */
module AuthorAcceptance {
  import opened Lists
  import opened Text
  import opened Wrappers
  import opened ArticleBlocks
  import opened AuthorLanguage
  import opened AuthorRoundTrip

  // ----- text

  predicate HasInk(s: string) {
    exists i :: 0 <= i < |s| && !IsSpace(s[i])
  }

  lemma {:induction false} InkIsNotBlank(s: string)
    ensures HasInk(s) <==> !Blank(s)
    decreases |s|
  {
    hide IsSpace;
    if s != "" {
      if IsSpace(s[0]) {
        InkIsNotBlank(s[1..]);
        assert forall i | 0 < i < |s| :: s[i] == s[1..][i - 1];
      } else if IsSpace(s[|s| - 1]) {
        assert !IsSpace(s[0]);
        InkIsNotBlank(s[..|s| - 1]);
      }
    }
  }

  // ----- sources

  /** A moment of the video at which the segment is spoken. */
  predicate IsHeard(w: World, i: nat, t: int)
    requires i < |w.transcript|
  {
    0 <= t < w.durationMs && w.transcript[i].startMs <= t < w.transcript[i].endMs
  }

  /** A source is a segment that was read and that is heard in the video, under its alias. */
  lemma DeliveredTextExactly(w: World, ref: string, i: nat)
    ensures IsText(w, ref, i) <==> i < |w.transcript| && ref == Alias(i) && ref in w.read && exists t :: IsHeard(w, i, t)
    ensures IsText(w, ref, i) ==> var r := Playable(w, w.transcript[i]); r.startMs < r.endMs && forall t :: r.startMs <= t < r.endMs <==> IsHeard(w, i, t)
  {
    hide Alias;
    if IsText(w, ref, i) {
      assert IsHeard(w, i, Playable(w, w.transcript[i]).startMs);
    }
  }

  /** Delivered text or a delivered frame. */
  ghost predicate IsDelivered(w: World, ref: string) {
    (exists i: nat :: IsText(w, ref, i)) || exists i: nat :: IsFrame(w, ref, i)
  }

  ghost predicate AreSources(w: World, refs: seq<string>) {
    refs != [] && forall ref | ref in refs :: IsDelivered(w, ref)
  }

  /** The citations are those of the sources as they were delivered. */
  ghost predicate AreCitations(w: World, refs: set<string>, citations: map<string, Citation>) {
    && citations.Keys == refs
    && forall ref | ref in refs :: IsCitationOf(w, ref, citations[ref])
  }

  ghost predicate IsCitationOf(w: World, ref: string, c: Citation) {
    && (forall i: nat | IsText(w, ref, i) ::
          c == VideoText(ref, TEXT_LABEL, w.snapshotId, [w.transcript[i].id], Some(Playable(w, w.transcript[i])), None, w.transcript[i].origin))
    && (forall i: nat | IsFrame(w, ref, i) :: c == VideoFrame(ref, FRAME_LABEL, w.snapshotId, w.frames[i].id, w.frames[i].timeMs))
  }

  lemma DeliveredIsInCatalog(w: World, ref: string)
    ensures ref in Catalog(w) <==> IsDelivered(w, ref)
    ensures ref in Catalog(w) ==> IsCitationOf(w, ref, Catalog(w)[ref])
  {
    hide Catalog, Alias, FrameAlias, TextDelivered;
    CatalogEntry(w, ref);
  }

  lemma SourcedExactly(w: World, refs: seq<string>)
    ensures Sourced(Catalog(w), refs).Ok? <==> AreSources(w, refs)
    ensures Sourced(Catalog(w), refs).Ok? ==> AreCitations(w, Elements(refs), Sourced(Catalog(w), refs).value)
  {
    hide Catalog, IsDelivered, IsCitationOf, FirstUndelivered;
    forall ref ensures ref in Catalog(w) <==> IsDelivered(w, ref) {
      DeliveredIsInCatalog(w, ref);
    }
    forall ref | ref in Catalog(w) ensures IsCitationOf(w, ref, Catalog(w)[ref]) {
      DeliveredIsInCatalog(w, ref);
    }
  }

  /** A text followed by its sources. */
  ghost predicate IsSourced(content: seq<Inline>, text: string, refs: seq<string>) {
    |content| == 1 + |refs| && content[0] == Prose(text) && forall k | 0 <= k < |refs| :: content[k + 1] == Cite(refs[k])
  }

  // ----- quotations

  /** The sources are delivered segments that follow one another in the transcript. */
  ghost predicate IsPassage(w: World, refs: seq<string>, at: seq<nat>) {
    && refs != [] && |at| == |refs|
    && (forall k | 0 <= k < |refs| :: IsText(w, refs[k], at[k]))
    && forall k | 0 < k < |refs| :: w.transcript[at[k]].ordinal == w.transcript[at[k - 1]].ordinal + 1
  }

  /** The originals, one line each. */
  function Spoken(w: World, at: seq<nat>): string
    requires forall k | 0 <= k < |at| :: at[k] < |w.transcript|
  {
    if at == [] then "" else if |at| == 1 then w.transcript[at[0]].text else w.transcript[at[0]].text + "\n" + Spoken(w, at[1..])
  }

  /** The text is a part of the originals, up to white space. */
  ghost predicate IsSaid(w: World, text: string, at: seq<nat>)
    requires forall k | 0 <= k < |at| :: at[k] < |w.transcript|
  {
    var said := Normalize(Spoken(w, at));
    exists i, j :: 0 <= i <= j <= |said| && said[i..j] == Normalize(text)
  }

  ghost predicate IsVerbatim(w: World, text: string, refs: seq<string>, at: seq<nat>) {
    IsPassage(w, refs, at) && IsSaid(w, text, at)
  }

  /** The citation of a quotation: its text, its segments, from the start of the first to the end of the last. */
  ghost predicate IsQuoteCitation(w: World, text: string, refs: seq<string>, at: seq<nat>, c: Citation)
    requires IsPassage(w, refs, at)
  {
    var first, last := w.transcript[at[0]], w.transcript[at[|at| - 1]];
    && c.VideoText? && c.display == TEXT_LABEL && c.snapshotId == w.snapshotId && c.textOrigin == first.origin && c.quote == Some(text)
    && |c.segmentIds| == |at| && (forall k | 0 <= k < |at| :: c.segmentIds[k] == w.transcript[at[k]].id)
    && c.range == Some(Range(Playable(w, first).startMs, Playable(w, last).endMs))
  }

  /** The segments of the first `n` sources. */
  ghost predicate IsGathered(w: World, refs: seq<string>, at: seq<nat>, got: seq<Segment>, n: nat)
    requires n <= |refs| && n <= |at|
  {
    && |got| == n
    && (forall k | 0 <= k < n :: IsText(w, refs[k], at[k]) && got[k] == w.transcript[at[k]])
    && forall k | 0 < k < n :: got[k].ordinal == got[k - 1].ordinal + 1
  }

  lemma OneSegment(w: World, ref: string, i: nat)
    requires IsText(w, ref, i)
    ensures ref in Catalog(w) && Catalog(w)[ref] == TextCitation(w, i)
  {
    hide Catalog, Alias, TextDelivered, TextCitation;
    CatalogEntry(w, ref);
  }

  lemma {:induction false} PassageIsGathered(w: World, refs: seq<string>, at: seq<nat>, n: nat)
    requires WellFormed(w) && IsPassage(w, refs, at) && n <= |refs| && forall ref | ref in refs :: ref in Catalog(w)
    ensures Gather(w, Catalog(w), refs, n).Ok? && IsGathered(w, refs, at, Gather(w, Catalog(w), refs, n).value, n)
  {
    hide Catalog, Gather, GatherSource, IsText, WellFormed;
    if n > 0 {
      PassageIsGathered(w, refs, at, n - 1);
      GatherNext(w, refs, n, at[n - 1]);
    } else {
      GatherNothing(w, refs);
    }
  }

  lemma GatherNothing(w: World, refs: seq<string>)
    requires forall ref | ref in refs :: ref in Catalog(w)
    ensures Gather(w, Catalog(w), refs, 0) == Ok([])
  {
    hide Catalog;
  }

  /** One more source: its segment, if it follows. */
  lemma GatherNext(w: World, refs: seq<string>, n: nat, i: nat)
    requires WellFormed(w) && 0 < n <= |refs| && (forall ref | ref in refs :: ref in Catalog(w)) && IsText(w, refs[n - 1], i)
    requires Gather(w, Catalog(w), refs, n - 1).Ok?
    ensures i < |w.transcript| && var got := Gather(w, Catalog(w), refs, n - 1).value;
      Gather(w, Catalog(w), refs, n) == if n > 1 && w.transcript[i].ordinal != LastOrdinal(got) + 1 then Fail(QuoteNotContinuous) else Ok(got + [w.transcript[i]])
  {
    hide Catalog, GatherSource, IsText;
    TextIsThere(w, refs[n - 1], i);
    OneSegment(w, refs[n - 1], i);
    GatherOne(w.transcript, |w.transcript|, i, n == 1, Gather(w, Catalog(w), refs, n - 1).value);
  }

  lemma TextIsThere(w: World, ref: string, i: nat)
    requires IsText(w, ref, i)
    ensures i < |w.transcript|
  {
  }

  lemma {:induction false} GatheredIsPassage(w: World, refs: seq<string>, n: nat) returns (at: seq<nat>)
    requires WellFormed(w) && n <= |refs| && (forall ref | ref in refs :: ref in Catalog(w)) && Gather(w, Catalog(w), refs, n).Ok?
    ensures |at| == n && IsGathered(w, refs, at, Gather(w, Catalog(w), refs, n).value, n)
  {
    hide Catalog, GatherSource, IsText;
    at := [];
    if n > 0 {
      var front := GatheredIsPassage(w, refs, n - 1);
      var i := TextAt(w, refs[n - 1]);
      GatherNext(w, refs, n, i);
      at := front + [i];
    }
  }

  lemma TextAt(w: World, ref: string) returns (i: nat)
    requires ref in Catalog(w) && Catalog(w)[ref].VideoText?
    ensures IsText(w, ref, i)
  {
    hide Catalog, Alias, FrameAlias, TextDelivered;
    CatalogEntry(w, ref);
    forall j: nat ensures !IsFrame(w, ref, j) {
      if IsFrame(w, ref, j) {
        OneFrame(w, ref, j);
      }
    }
    i :| IsText(w, ref, i);
  }

  lemma OneFrame(w: World, ref: string, j: nat)
    requires IsFrame(w, ref, j)
    ensures ref in Catalog(w) && Catalog(w)[ref] == FrameCitation(w, j) && Catalog(w)[ref].VideoFrame?
  {
    hide Catalog, FrameAlias;
    CatalogEntry(w, ref);
  }

  lemma {:induction false} LinesAreSpoken(w: World, at: seq<nat>, got: seq<Segment>)
    requires |got| == |at| && forall k | 0 <= k < |at| :: at[k] < |w.transcript| && got[k] == w.transcript[at[k]]
    ensures Lines(got) == Spoken(w, at)
    decreases |got|
  {
    if |got| > 1 {
      LinesFromFront(got);
      LinesAreSpoken(w, at[1..], got[1..]);
    }
  }

  lemma {:induction false} LinesFromFront(got: seq<Segment>)
    requires |got| > 1
    ensures Lines(got) == got[0].text + "\n" + Lines(got[1..])
    decreases |got|
  {
    if |got| > 2 {
      var front := got[..|got| - 1];
      LinesFromFront(front);
      assert front[1..] == got[1..][..|got[1..]| - 1];
    }
  }

  lemma OccursIsPart(text: string, part: string)
    ensures Occurs(text, part) <==> exists i, j :: 0 <= i <= j <= |text| && text[i..j] == part
  {
    if Occurs(text, part) {
      var at := FirstFrom(text, part, 0);
      assert text[at..at + |part|] == part;
    }
    if i, j :| 0 <= i <= j <= |text| && text[i..j] == part {
      assert OccursAt(text, part, i);
    }
  }

  lemma SaidIsOccurring(w: World, text: string, refs: seq<string>, at: seq<nat>, got: seq<Segment>)
    requires |at| == |refs| && IsGathered(w, refs, at, got, |refs|) && forall k | 0 <= k < |at| :: at[k] < |w.transcript|
    ensures Occurs(Normalize(Lines(got)), Normalize(text)) <==> IsSaid(w, text, at)
  {
    hide Normalize, IsText, Occurs;
    LinesAreSpoken(w, at, got);
    OccursIsPart(Normalize(Lines(got)), Normalize(text));
  }

  lemma GatheredPassage(w: World, refs: seq<string>, at: seq<nat>, got: seq<Segment>)
    requires refs != [] && |at| == |refs| && IsGathered(w, refs, at, got, |refs|)
    ensures IsPassage(w, refs, at) && forall k | 0 <= k < |at| :: at[k] < |w.transcript|
  {
    hide Alias, TextDelivered;
  }

  lemma PassageOnce(w: World, refs: seq<string>, at: seq<nat>, at': seq<nat>)
    requires IsPassage(w, refs, at) && IsPassage(w, refs, at')
    ensures at == at'
  {
    hide Alias, TextDelivered;
    forall k | 0 <= k < |refs| ensures at[k] == at'[k] {
      AliasInjective(at[k], at'[k]);
    }
  }

  lemma QuoteCites(w: World, text: string, refs: seq<string>, at: seq<nat>, got: seq<Segment>)
    requires IsPassage(w, refs, at) && IsGathered(w, refs, at, got, |refs|) && forall ref | ref in refs :: ref in Catalog(w) && Catalog(w)[ref].VideoText?
    ensures IsQuoteCitation(w, text, refs, at, QuoteCitation(w, Catalog(w), text, refs, got))
  {
    hide Catalog, IsText;
    OneSegment(w, refs[0], at[0]);
    OneSegment(w, refs[|refs| - 1], at[|at| - 1]);
    TextIsThere(w, refs[0], at[0]);
    TextIsThere(w, refs[|refs| - 1], at[|at| - 1]);
  }

  /** An accepted quotation: its text, and one citation of its own beside those of its sources. */
  ghost predicate SaysQuote(w: World, b: string, text: string, refs: seq<string>, at: seq<nat>, u: Unit)
    requires IsPassage(w, refs, at)
  {
    && u.block.Quotation? && u.block.id == b && u.notes == map[]
    && exists q :: q in u.citations && u.citations[q].id == q && IsSourced(u.block.content, text, [q])
        && IsQuoteCitation(w, text, refs, at, u.citations[q]) && AreCitations(w, Elements(refs), u.citations - {q})
  }

  /** MAIN RESULT: a quotation is accepted exactly when it has text, its sources are delivered originals
      that follow one another, and its text is a part of what they say. */
  lemma QuoteIsVerbatim(w: World, b: string, text: string, refs: seq<string>)
    requires WellFormed(w)
    ensures CompileQuote(w, Catalog(w), b, text, refs).Ok? <==> HasInk(text) && exists at :: IsVerbatim(w, text, refs, at)
    ensures forall at | IsPassage(w, refs, at) && CompileQuote(w, Catalog(w), b, text, refs).Ok? ::
      SaysQuote(w, b, text, refs, at, CompileQuote(w, Catalog(w), b, text, refs).value)
  {
    hide Catalog, WellFormed, Blank, HasInk, IsText, IsSaid, IsQuoteCitation, Gather, Sourced, SaysQuote, Normalize, Occurs, Lines, QuoteCitation;
    InkIsNotBlank(text);
    SourcedExactly(w, refs);
    if CompileQuote(w, Catalog(w), b, text, refs).Ok? {
      SourcedInCatalog(w, refs);
      var got := Gather(w, Catalog(w), refs, |refs|).value;
      var at := GatheredIsPassage(w, refs, |refs|);
      GatheredPassage(w, refs, at, got);
      SaidIsOccurring(w, text, refs, at, got);
      assert IsVerbatim(w, text, refs, at);
      QuoteSays(w, b, text, refs, at, got);
      forall at' | IsPassage(w, refs, at') ensures at' == at {
        PassageOnce(w, refs, at, at');
      }
    }
    if at :| IsVerbatim(w, text, refs, at) {
      PassageIsSourced(w, refs, at);
      SourcedInCatalog(w, refs);
      PassageIsGathered(w, refs, at, |refs|);
      GatheredPassage(w, refs, at, Gather(w, Catalog(w), refs, |refs|).value);
      SaidIsOccurring(w, text, refs, at, Gather(w, Catalog(w), refs, |refs|).value);
    }
  }

  lemma SourcedInCatalog(w: World, refs: seq<string>)
    requires AreSources(w, refs)
    ensures refs != [] && forall ref | ref in refs :: ref in Catalog(w)
  {
    hide Catalog, IsDelivered;
    forall ref | ref in refs ensures ref in Catalog(w) {
      DeliveredIsInCatalog(w, ref);
    }
  }

  lemma PassageIsSourced(w: World, refs: seq<string>, at: seq<nat>)
    requires IsPassage(w, refs, at)
    ensures AreSources(w, refs)
  {
    hide IsText;
    forall ref | ref in refs ensures IsDelivered(w, ref) {
      var k :| 0 <= k < |refs| && refs[k] == ref;
      assert IsText(w, ref, at[k]);
    }
  }

  lemma QuoteSays(w: World, b: string, text: string, refs: seq<string>, at: seq<nat>, got: seq<Segment>)
    requires IsPassage(w, refs, at) && IsGathered(w, refs, at, got, |refs|) && CompileQuote(w, Catalog(w), b, text, refs).Ok?
    requires Gather(w, Catalog(w), refs, |refs|) == Ok(got)
    ensures SaysQuote(w, b, text, refs, at, CompileQuote(w, Catalog(w), b, text, refs).value)
  {
    hide Catalog, IsText, Gather, Normalize, Occurs, Lines, QuoteCitation, IsQuoteCitation, TrimSpace, IsCitationOf, QuoteId;
    SourcedExactly(w, refs);
    GatheredIsText(w, Catalog(w), refs, |refs|);
    forall ref | ref in refs ensures ref in Catalog(w) && Catalog(w)[ref].VideoText? {
    }
    QuoteCites(w, text, refs, at, got);
    var u := CompileQuote(w, Catalog(w), b, text, refs).value;
    var q := QuoteId(w, text, refs);
    QuoteIdIsNew(w, text, refs);
    QuoteCitationId(w, text, refs, got);
    assert u.citations - {q} == Sourced(Catalog(w), refs).value;
  }

  lemma QuoteCitationId(w: World, text: string, refs: seq<string>, got: seq<Segment>)
    requires refs != [] && forall ref | ref in refs :: ref in Catalog(w) && Catalog(w)[ref].VideoText?
    ensures QuoteCitation(w, Catalog(w), text, refs, got).id == QuoteId(w, text, refs)
  {
    hide Catalog, QuoteId;
  }

  lemma QuoteIdIsNew(w: World, text: string, refs: seq<string>)
    ensures QuoteId(w, text, refs) !in Catalog(w)
  {
    hide Catalog, Decimal;
    var id := QuoteId(w, text, refs);
    assert id[..1] == "q";
    CatalogEntry(w, id);
    forall i: nat ensures !IsText(w, id, i) && !IsFrame(w, id, i) {
      assert Alias(i)[..1] == "t" && FrameAlias(i)[..1] == "f";
    }
  }

  // ----- figures

  /** Delivered frames in the order of their times, none twice. */
  ghost predicate IsStrip(w: World, refs: seq<string>, at: seq<nat>) {
    && refs != [] && |at| == |refs|
    && (forall k | 0 <= k < |refs| :: IsFrame(w, refs[k], at[k]))
    && -1 <= w.frames[at[0]].timeMs
    && (forall k | 0 < k < |refs| :: w.frames[at[k - 1]].timeMs <= w.frames[at[k]].timeMs)
    && forall i, j | 0 <= i < j < |refs| :: refs[i] != refs[j]
  }

  lemma FrameIsThere(w: World, ref: string, i: nat)
    requires IsFrame(w, ref, i)
    ensures i < |w.frames|
  {
  }

  lemma StripFollows(w: World, refs: seq<string>, at: seq<nat>)
    requires IsStrip(w, refs, at)
    ensures AreSources(w, refs) && (forall ref | ref in refs :: ref in Catalog(w)) && FramesFollow(Catalog(w), refs)
    ensures FrameIds(Catalog(w), refs) == seq(|at|, k requires 0 <= k < |at| => FrameIsThere(w, refs[k], at[k]); w.frames[at[k]].id)
  {
    hide Catalog, IsFrame;
    forall k | 0 <= k < |refs| ensures at[k] < |w.frames| && refs[k] in Catalog(w) && Catalog(w)[refs[k]] == FrameCitation(w, at[k]) && IsDelivered(w, refs[k]) {
      FrameIsThere(w, refs[k], at[k]);
      OneFrame(w, refs[k], at[k]);
    }
    forall k | 0 <= k < |refs| ensures FrameFollows(Catalog(w), refs, k) {
      assert forall m | 0 <= m < k :: refs[..k][m] != refs[k];
    }
  }

  lemma FrameAt(w: World, ref: string) returns (i: nat)
    requires ref in Catalog(w) && Catalog(w)[ref].VideoFrame?
    ensures IsFrame(w, ref, i)
  {
    hide Catalog, Alias, FrameAlias, TextDelivered;
    CatalogEntry(w, ref);
    forall j: nat ensures !IsText(w, ref, j) {
      if IsText(w, ref, j) {
        OneSegment(w, ref, j);
      }
    }
    i :| IsFrame(w, ref, i);
  }

  lemma {:induction false} FramesAt(w: World, refs: seq<string>, n: nat) returns (at: seq<nat>)
    requires n <= |refs| && forall k | 0 <= k < n :: refs[k] in Catalog(w) && Catalog(w)[refs[k]].VideoFrame?
    ensures |at| == n && forall k | 0 <= k < n :: IsFrame(w, refs[k], at[k])
  {
    hide Catalog, IsFrame;
    at := [];
    if n > 0 {
      var front := FramesAt(w, refs, n - 1);
      var i := FrameAt(w, refs[n - 1]);
      at := front + [i];
    }
  }

  lemma FollowingIsStrip(w: World, refs: seq<string>) returns (at: seq<nat>)
    requires refs != [] && (forall ref | ref in refs :: ref in Catalog(w)) && FramesFollow(Catalog(w), refs)
    ensures IsStrip(w, refs, at)
  {
    hide Catalog, IsFrame;
    forall k | 0 <= k < |refs| ensures Catalog(w)[refs[k]].VideoFrame? {
      assert FrameFollows(Catalog(w), refs, k);
    }
    at := FramesAt(w, refs, |refs|);
    forall k | 0 <= k < |refs| ensures at[k] < |w.frames| && Catalog(w)[refs[k]] == FrameCitation(w, at[k]) && FrameFollows(Catalog(w), refs, k) {
      FrameIsThere(w, refs[k], at[k]);
      OneFrame(w, refs[k], at[k]);
    }
    forall i, j | 0 <= i < j < |refs| ensures refs[i] != refs[j] {
      assert refs[..j][i] == refs[i];
    }
  }

  // ----- one unit

  /** Exactly one of the seven constructors. */
  predicate IsOneOfSeven(c: Content) {
    || (c.text.Some? && c == NOTHING.(text := c.text, sources := c.sources))
    || (c.quote.Some? && c == NOTHING.(quote := c.quote, sources := c.sources))
    || (c.background.Some? && c == NOTHING.(background := c.background, sources := c.sources))
    || (c.list.Some? && c == NOTHING.(list := c.list, sources := c.sources))
    || (c.code.Some? && c == NOTHING.(code := c.code, sources := c.sources))
    || (c.table.Some? && c == NOTHING.(table := c.table, sources := c.sources))
    || (c.figure.Some? && c == NOTHING.(figure := c.figure, sources := c.sources))
  }

  ghost predicate IsGoodList(w: World, list: Bullets) {
    list.items != [] && forall item | item in list.items :: HasInk(item.text) && AreSources(w, item.sources)
  }

  ghost predicate IsGoodTable(w: World, table: Grid) {
    table.columns != [] && table.rows != [] && forall row | row in table.rows :: |row.cells| == |table.columns| && AreSources(w, row.sources)
  }

  ghost predicate IsGoodFigure(w: World, f: Picture) {
    HasInk(f.caption) && f.note.visibleFacts != [] && exists at :: IsStrip(w, f.frames, at)
  }

  /** What each constructor asks for. Lists, tables and figures name their sources themselves. */
  ghost predicate IsAcceptable(w: World, c: Content) {
    && IsOneOfSeven(c)
    && (c.text.Some? ==> HasInk(c.text.value) && AreSources(w, c.sources))
    && (c.quote.Some? ==> HasInk(c.quote.value) && exists at :: IsVerbatim(w, c.quote.value, c.sources, at))
    && (c.background.Some? ==> HasInk(c.background.value) && c.sources == [])
    && (c.list.Some? ==> IsGoodList(w, c.list.value) && c.sources == [])
    && (c.code.Some? ==> HasInk(c.code.value.text) && AreSources(w, c.sources))
    && (c.table.Some? ==> IsGoodTable(w, c.table.value) && c.sources == [])
    && (c.figure.Some? ==> IsGoodFigure(w, c.figure.value) && c.sources == [])
  }

  lemma {:induction false} ItemsExactly(w: World, b: string, items: seq<SourcedText>, n: nat)
    requires n <= |items|
    ensures CompileItems(Catalog(w), b, items, n).Ok? <==> forall k | 0 <= k < n :: HasInk(items[k].text) && AreSources(w, items[k].sources)
    ensures CompileItems(Catalog(w), b, items, n).Ok? ==>
      var parts := CompileItems(Catalog(w), b, items, n).value.parts; |parts| == n && forall k | 0 <= k < n :: parts[k].id == ItemId(b, k) && IsSourced(parts[k].content, items[k].text, items[k].sources)
  {
    hide Catalog, HasInk, Blank, AreSources, Sourced, ItemId;
    if n > 0 {
      ItemsExactly(w, b, items, n - 1);
      InkIsNotBlank(items[n - 1].text);
      SourcedExactly(w, items[n - 1].sources);
    }
  }

  lemma {:induction false} RowsExactly(w: World, width: nat, rows: seq<SourcedRow>, n: nat)
    requires n <= |rows|
    ensures CompileRows(Catalog(w), width, rows, n).Ok? <==> forall k | 0 <= k < n :: |rows[k].cells| == width && AreSources(w, rows[k].sources)
    ensures CompileRows(Catalog(w), width, rows, n).Ok? ==>
      var parts := CompileRows(Catalog(w), width, rows, n).value.parts; |parts| == n && forall k | 0 <= k < n :: parts[k] == Row(rows[k].cells, rows[k].sources)
  {
    hide Catalog, AreSources, Sourced;
    if n > 0 {
      RowsExactly(w, width, rows, n - 1);
      SourcedExactly(w, rows[n - 1].sources);
    }
  }

  lemma ListExactly(w: World, b: string, list: Bullets, sources: seq<string>)
    ensures CompileList(Catalog(w), b, list, sources).Ok? <==> IsGoodList(w, list) && sources == []
  {
    hide Catalog, HasInk, AreSources, CompileItems;
    ItemsExactly(w, b, list.items, |list.items|);
    forall item | item in list.items ensures exists k :: 0 <= k < |list.items| && list.items[k] == item {
    }
  }

  lemma TableExactly(w: World, b: string, table: Grid, sources: seq<string>)
    ensures CompileTable(Catalog(w), b, table, sources).Ok? <==> IsGoodTable(w, table) && sources == []
  {
    hide Catalog, AreSources, CompileRows;
    RowsExactly(w, |table.columns|, table.rows, |table.rows|);
  }

  lemma FigureExactly(w: World, b: string, f: Picture, sources: seq<string>)
    ensures CompileFigure(Catalog(w), b, f, sources).Ok? <==> IsGoodFigure(w, f) && sources == []
  {
    hide Catalog, HasInk, Blank, AreSources, Sourced, IsStrip, FramesFollow, FrameIds;
    InkIsNotBlank(f.caption);
    SourcedExactly(w, f.frames);
    if CompileFigure(Catalog(w), b, f, sources).Ok? {
      SourcedInCatalog(w, f.frames);
      var at := FollowingIsStrip(w, f.frames);
    }
    if at :| IsStrip(w, f.frames, at) {
      StripFollows(w, f.frames, at);
      StripIsSome(w, f.frames, at);
    }
  }

  lemma StripIsSome(w: World, refs: seq<string>, at: seq<nat>)
    requires IsStrip(w, refs, at)
    ensures refs != []
  {
  }

  lemma PlainExactly(w: World, b: string, c: Content)
    ensures c.text.Some? ==> (CompileText(Catalog(w), b, c.text.value, c.sources).Ok? <==> HasInk(c.text.value) && AreSources(w, c.sources))
    ensures c.background.Some? ==> (CompileBackground(b, c.background.value, c.sources).Ok? <==> HasInk(c.background.value) && c.sources == [])
    ensures c.code.Some? ==> (CompileCode(Catalog(w), b, c.code.value, c.sources).Ok? <==> HasInk(c.code.value.text) && AreSources(w, c.sources))
  {
    hide Catalog, HasInk, Blank, AreSources, Sourced, Inlines;
    SourcedExactly(w, c.sources);
    if c.text.Some? {
      InkIsNotBlank(c.text.value);
    }
    if c.background.Some? {
      InkIsNotBlank(c.background.value);
    }
    if c.code.Some? {
      InkIsNotBlank(c.code.value.text);
    }
  }

  /** MAIN RESULT: a unit is accepted exactly when it is one of the seven constructors and has what that
      one asks for. */
  lemma UnitIsAccepted(w: World, b: string, c: Content)
    requires WellFormed(w)
    ensures CompileUnit(w, Catalog(w), b, c).Ok? <==> IsAcceptable(w, c)
  {
    hide Catalog, WellFormed, HasInk, AreSources, IsVerbatim, IsGoodList, IsGoodTable, IsGoodFigure, CompileText, CompileQuote, CompileBackground, CompileList, CompileCode, CompileTable, CompileFigure, SaysQuote, IsPassage;
    OneOfSeven(c);
    PlainExactly(w, b, c);
    if c.quote.Some? {
      QuoteIsVerbatim(w, b, c.quote.value, c.sources);
    }
    if c.list.Some? {
      ListExactly(w, b, c.list.value, c.sources);
    }
    if c.table.Some? {
      TableExactly(w, b, c.table.value, c.sources);
    }
    if c.figure.Some? {
      FigureExactly(w, b, c.figure.value, c.sources);
    }
  }

  lemma OneOfSeven(c: Content)
    ensures Constructors(c) == 1 <==> IsOneOfSeven(c)
  {
  }

  // ----- what an accepted unit says

  ghost predicate RendersList(b: string, list: Bullets, block: Block) {
    && block.Listing? && block.ordered == list.ordered && |block.items| == |list.items|
    && forall k | 0 <= k < |list.items| ::
         block.items[k].id == ItemId(b, k) && IsSourced(block.items[k].content, list.items[k].text, list.items[k].sources)
  }

  ghost predicate RendersTable(table: Grid, block: Block) {
    && block.Table? && block.columns == table.columns && |block.rows| == |table.rows|
    && forall k | 0 <= k < |table.rows| :: block.rows[k] == Row(table.rows[k].cells, table.rows[k].sources)
  }

  ghost predicate RendersFigure(w: World, f: Picture, block: Block) {
    && block.Figure? && block.caption == f.caption && block.citationIds == f.frames
    && (block.layout == Single <==> |f.frames| == 1) && ShowsStrip(w, f.frames, block.frameIds)
  }

  /** The block renders the unit: its text, then its sources; parts in order under their own identities. */
  ghost predicate Renders(w: World, b: string, c: Content, block: Block) {
    && block.id == b
    && (c.text.Some? ==> block.Paragraph? && block.origin == FromVideo && IsSourced(block.content, c.text.value, c.sources))
    && (c.background.Some? ==> block.Paragraph? && block.origin == Background && IsSourced(block.content, c.background.value, []))
    && (c.quote.Some? ==> block.Quotation?)
    && (c.list.Some? ==> RendersList(b, c.list.value, block))
    && (c.code.Some? ==> block == Code(b, c.code.value.language, c.code.value.text, c.sources))
    && (c.table.Some? ==> RendersTable(c.table.value, block))
    && (c.figure.Some? ==> RendersFigure(w, c.figure.value, block))
  }

  ghost predicate ShowsStrip(w: World, refs: seq<string>, frameIds: seq<string>) {
    |frameIds| == |refs| && forall k, i: nat | 0 <= k < |refs| && IsFrame(w, refs[k], i) :: frameIds[k] == w.frames[i].id
  }

  lemma StripIsShown(w: World, refs: seq<string>, at: seq<nat>)
    requires IsStrip(w, refs, at) && (forall ref | ref in refs :: ref in Catalog(w)) && FramesFollow(Catalog(w), refs)
    ensures ShowsStrip(w, refs, FrameIds(Catalog(w), refs))
  {
    hide Catalog, FrameAlias;
    StripFollows(w, refs, at);
    forall k, i: nat | 0 <= k < |refs| && IsFrame(w, refs[k], i) ensures i == at[k] {
      assert IsFrame(w, refs[k], at[k]);
      AliasKinds(i, at[k]);
    }
  }

  lemma FigureRenders(w: World, b: string, f: Picture, sources: seq<string>)
    requires CompileFigure(Catalog(w), b, f, sources).Ok?
    ensures Renders(w, b, NOTHING.(figure := Some(f), sources := sources), CompileFigure(Catalog(w), b, f, sources).value.block)
  {
    hide Catalog, Blank, AreSources, Sourced, IsStrip, ShowsStrip, FrameFollows;
    SourcedExactly(w, f.frames);
    SourcedInCatalog(w, f.frames);
    var at := FollowingIsStrip(w, f.frames);
    StripIsShown(w, f.frames, at);
  }

  lemma ListRenders(w: World, b: string, list: Bullets, sources: seq<string>)
    requires CompileList(Catalog(w), b, list, sources).Ok?
    ensures Renders(w, b, NOTHING.(list := Some(list), sources := sources), CompileList(Catalog(w), b, list, sources).value.block)
  {
    hide Catalog, CompileItems, HasInk, AreSources, IsSourced, ItemId;
    ItemsExactly(w, b, list.items, |list.items|);
  }

  lemma TableRenders(w: World, b: string, table: Grid, sources: seq<string>)
    requires CompileTable(Catalog(w), b, table, sources).Ok?
    ensures Renders(w, b, NOTHING.(table := Some(table), sources := sources), CompileTable(Catalog(w), b, table, sources).value.block)
  {
    hide Catalog, CompileRows, AreSources;
    RowsExactly(w, |table.columns|, table.rows, |table.rows|);
  }

  lemma PlainRenders(w: World, b: string, c: Content)
    requires IsOneOfSeven(c) && (c.text.Some? || c.background.Some? || c.code.Some? || c.quote.Some?) && CompileUnit(w, Catalog(w), b, c).Ok?
    ensures Renders(w, b, c, CompileUnit(w, Catalog(w), b, c).value.block)
  {
    hide Catalog, Blank, Sourced, Gather, Normalize, Occurs, Lines, QuoteCitation, ShowsStrip;
  }

  /** An accepted unit renders to a block that says the same. */
  lemma UnitRenders(w: World, b: string, c: Content)
    requires CompileUnit(w, Catalog(w), b, c).Ok?
    ensures Renders(w, b, c, CompileUnit(w, Catalog(w), b, c).value.block)
  {
    hide Catalog, CompileText, CompileQuote, CompileBackground, CompileList, CompileCode, CompileTable, CompileFigure, Renders;
    OneOfSeven(c);
    if c.figure.Some? {
      FigureRenders(w, b, c.figure.value, c.sources);
    } else if c.list.Some? {
      ListRenders(w, b, c.list.value, c.sources);
    } else if c.table.Some? {
      TableRenders(w, b, c.table.value, c.sources);
    } else {
      PlainRenders(w, b, c);
    }
  }

  // ----- a whole section

  ghost predicate IsGoodObservation(w: World, o: Observation) {
    o.note.visibleFacts != [] && exists i: nat :: IsFrame(w, o.frame, i)
  }

  ghost predicate IsGoodLimitation(w: World, l: ScopedLimitation) {
    HasInk(l.message) && l.code in LIMITATION_CODES && forall ref | ref in l.sources :: IsDelivered(w, ref)
  }

  /** A chapter that the author language accepts. */
  ghost predicate IsGoodSection(w: World, s: AuthorSection) {
    && s.rejected == "" && HasInk(s.title) && 0 < |s.content| <= 400
    && (forall c | c in s.content :: IsAcceptable(w, c))
    && (forall o | o in s.observations :: IsGoodObservation(w, o))
    && (forall l | l in s.limitations :: IsGoodLimitation(w, l))
  }

  lemma {:induction false} UnitsExactly(w: World, id: string, content: seq<Content>, n: nat)
    requires WellFormed(w) && n <= |content|
    ensures CompileUnits(w, Catalog(w), id, content, n).Ok? <==> forall k | 0 <= k < n :: IsAcceptable(w, content[k])
    ensures CompileUnits(w, Catalog(w), id, content, n).Ok? ==>
      var blocks := CompileUnits(w, Catalog(w), id, content, n).value.blocks; forall k | 0 <= k < n :: Renders(w, BlockId(id, k), content[k], blocks[k])
  {
    hide Catalog, WellFormed, CompileUnit, IsAcceptable, Renders, BlockId;
    if n > 0 {
      UnitsExactly(w, id, content, n - 1);
      UnitIsAccepted(w, BlockId(id, n - 1), content[n - 1]);
      if CompileUnit(w, Catalog(w), BlockId(id, n - 1), content[n - 1]).Ok? {
        UnitRenders(w, BlockId(id, n - 1), content[n - 1]);
      }
    }
  }

  lemma ObservedExactly(w: World, o: Observation)
    ensures Observed(Catalog(w), o) <==> IsGoodObservation(w, o)
  {
    hide Catalog, IsFrame;
    if Observed(Catalog(w), o) {
      var i := FrameAt(w, o.frame);
    }
    if i: nat :| IsFrame(w, o.frame, i) {
      OneFrame(w, o.frame, i);
    }
  }

  lemma LimitationExactly(w: World, l: ScopedLimitation)
    ensures LimitationProblem(Catalog(w), l).None? <==> IsGoodLimitation(w, l)
  {
    hide Catalog, HasInk, Blank, IsDelivered;
    InkIsNotBlank(l.message);
    forall ref ensures ref in Catalog(w) <==> IsDelivered(w, ref) {
      DeliveredIsInCatalog(w, ref);
    }
  }

  lemma {:induction false} LimitationsExactly(w: World, id: string, ls: seq<ScopedLimitation>, n: nat)
    requires n <= |ls|
    ensures CompileLimitations(Catalog(w), id, ls, n).Ok? <==> forall k | 0 <= k < n :: IsGoodLimitation(w, ls[k])
    ensures CompileLimitations(Catalog(w), id, ls, n).Ok? ==>
      var parts := CompileLimitations(Catalog(w), id, ls, n).value.parts; |parts| == n && forall k | 0 <= k < n :: parts[k] == Limitation(ls[k].code, ls[k].message, [id], ls[k].sources)
  {
    hide Catalog, LimitationProblem, IsGoodLimitation;
    if n > 0 {
      LimitationsExactly(w, id, ls, n - 1);
      LimitationExactly(w, ls[n - 1]);
    }
  }

  /** The title without the white space around it. */
  ghost predicate IsTrimmed(s: string, out: string) {
    exists i, j :: 0 <= i <= j <= |s| && s[i..j] == out && IsSpaceAround(s, i, j)
  }

  ghost predicate IsSpaceAround(s: string, i: int, j: int)
    requires 0 <= i <= j <= |s|
  {
    && (forall k | 0 <= k < |s| && !(i <= k < j) :: IsSpace(s[k]))
    && (i < j ==> !IsSpace(s[i]) && !IsSpace(s[j - 1]))
  }

  lemma {:induction false} TrimmingIsExact(s: string)
    ensures IsTrimmed(s, TrimSpace(s))
    decreases |s|
  {
    hide IsSpace;
    if s == "" {
      assert s[0..0] == "" && IsSpaceAround(s, 0, 0);
    } else if IsSpace(s[0]) {
      TrimmingIsExact(s[1..]);
      TrimmedFront(s, TrimSpace(s[1..]));
    } else if IsSpace(s[|s| - 1]) {
      TrimmingIsExact(s[..|s| - 1]);
      TrimmedBack(s, TrimSpace(s[..|s| - 1]));
    } else {
      assert s[0..|s|] == s && IsSpaceAround(s, 0, |s|);
    }
  }

  lemma TrimmedFront(s: string, out: string)
    requires s != "" && IsSpace(s[0]) && IsTrimmed(s[1..], out)
    ensures IsTrimmed(s, out)
  {
    hide IsSpace;
    var rest := s[1..];
    var i, j :| 0 <= i <= j <= |rest| && rest[i..j] == out && IsSpaceAround(rest, i, j);
    assert s[i + 1..j + 1] == rest[i..j];
    SpaceBefore(s, i, j);
  }

  lemma SpaceBefore(s: string, i: int, j: int)
    requires s != "" && IsSpace(s[0]) && 0 <= i <= j < |s| && IsSpaceAround(s[1..], i, j)
    ensures IsSpaceAround(s, i + 1, j + 1)
  {
    hide IsSpace;
    forall k | 0 <= k < |s| && !(i + 1 <= k < j + 1) ensures IsSpace(s[k]) {
      if k > 0 {
        assert IsSpace(s[1..][k - 1]);
      }
    }
  }

  lemma TrimmedBack(s: string, out: string)
    requires s != "" && IsSpace(s[|s| - 1]) && IsTrimmed(s[..|s| - 1], out)
    ensures IsTrimmed(s, out)
  {
    hide IsSpace;
    var front := s[..|s| - 1];
    var i, j :| 0 <= i <= j <= |front| && front[i..j] == out && IsSpaceAround(front, i, j);
    assert s[i..j] == out;
    forall k | 0 <= k < |s| && !(i <= k < j) ensures IsSpace(s[k]) {
      if k < |front| {
        assert IsSpace(front[k]);
      }
    }
    assert IsSpaceAround(s, i, j);
  }

  /** Where a frame was last observed; -1 when it was not. */
  function LastObserved(cat: map<string, Citation>, observations: seq<Observation>, n: nat, f: string): (k: int)
    requires n <= |observations|
    ensures -1 <= k < n && (k >= 0 ==> IsOfFrame(cat, observations[k], f))
    ensures forall m | k < m < n :: !IsOfFrame(cat, observations[m], f)
  {
    if n == 0 then -1 else if IsOfFrame(cat, observations[n - 1], f) then n - 1 else LastObserved(cat, observations, n - 1, f)
  }

  predicate IsOfFrame(cat: map<string, Citation>, o: Observation, f: string) {
    o.frame in cat && cat[o.frame].VideoFrame? && cat[o.frame].frameId == f
  }

  /** The last observation of a frame counts, else what the units note. */
  lemma {:induction false} ObserveIsLast(cat: map<string, Citation>, notes: map<string, Note>, observations: seq<Observation>, n: nat, f: string)
    requires n <= |observations| && forall k | 0 <= k < n :: Observed(cat, observations[k])
    ensures var k, after := LastObserved(cat, observations, n, f), Observe(cat, notes, observations, n); (f in after <==> k >= 0 || f in notes) && (f in after ==> after[f] == if k >= 0 then observations[k].note else notes[f])
  {
    if n > 0 {
      assert Observed(cat, observations[n - 1]);
      ObserveIsLast(cat, notes, observations, n - 1, f);
    }
  }

  /** MAIN RESULT: a chapter is accepted exactly when the decoder, its title, its units, its observations
      and its limitations give no reason to refuse it; and it says what was written. */
  lemma SectionIsAccepted(w: World, s: AuthorSection, id: string)
    requires WellFormed(w)
    ensures CompileSection(w, Catalog(w), s, id).Ok? <==> IsGoodSection(w, s)
    ensures CompileSection(w, Catalog(w), s, id).Ok? ==> var c := CompileSection(w, Catalog(w), s, id).value; c.section.id == id && IsTrimmed(s.title, c.section.title) && |c.section.blocks| == |s.content|
    ensures CompileSection(w, Catalog(w), s, id).Ok? ==> var c := CompileSection(w, Catalog(w), s, id).value; forall k | 0 <= k < |s.content| :: Renders(w, BlockId(id, k), s.content[k], c.section.blocks[k])
    ensures CompileSection(w, Catalog(w), s, id).Ok? ==> var c := CompileSection(w, Catalog(w), s, id).value; |c.limitations| == |s.limitations| && forall k | 0 <= k < |s.limitations| :: c.limitations[k] == Limitation(s.limitations[k].code, s.limitations[k].message, [id], s.limitations[k].sources)
  {
    hide Catalog, WellFormed, HasInk, Blank, IsAcceptable, IsGoodObservation, IsGoodLimitation, Renders, CompileUnits, CompileLimitations, Observed, BlockId, IsTrimmed, TrimSpace;
    InkIsNotBlank(s.title);
    TrimmingIsExact(s.title);
    UnitsExactly(w, id, s.content, |s.content|);
    LimitationsExactly(w, id, s.limitations, |s.limitations|);
    forall o ensures Observed(Catalog(w), o) <==> IsGoodObservation(w, o) {
      ObservedExactly(w, o);
    }
  }
}
