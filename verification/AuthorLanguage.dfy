/** The language in which a model writes chapters, its compiler to canonical blocks and the projection
    back (internal/investigator/article_loop_wire.go, article_loop_projection.go).

    A model names sources by aliases, `t1, t2, ...` for the segments of the transcript and `f1, f2, ...`
    for the captured frames. Identities, citations and rendering nodes are made by the program. */
module AuthorLanguage {
  import opened Lists
  import opened Text
  import opened Wrappers
  import opened ArticleBlocks

  // ----- what has been delivered

  datatype Segment = Segment(id: string, ordinal: int, text: string, origin: string, startMs: int, endMs: int)
  datatype Frame = Frame(id: string, timeMs: int)

  /** `read` and `seen` are the aliases and frames that were delivered; `quoteHash` identifies a quotation. */
  datatype World = World(
    snapshotId: string, durationMs: int, transcript: seq<Segment>, frames: seq<Frame>, read: set<string>, seen: set<string>,
    quoteHash: (string, seq<string>) -> string)

  function FrameAlias(i: nat): string {
    "f" + Decimal(i + 1)
  }

  function Playable(w: World, t: Segment): Range {
    Range(if t.startMs < 0 then 0 else t.startMs, if t.endMs < w.durationMs then t.endMs else w.durationMs)
  }

  predicate TextDelivered(w: World, i: nat)
    requires i < |w.transcript|
  {
    Alias(i) in w.read && Playable(w, w.transcript[i]).startMs < Playable(w, w.transcript[i]).endMs
  }

  const TEXT_LABEL := "video original"
  const FRAME_LABEL := "video picture"

  function TextCitation(w: World, i: nat): Citation
    requires i < |w.transcript|
  {
    VideoText(Alias(i), TEXT_LABEL, w.snapshotId, [w.transcript[i].id], Some(Playable(w, w.transcript[i])), None, w.transcript[i].origin)
  }

  function FrameCitation(w: World, i: nat): Citation
    requires i < |w.frames|
  {
    VideoFrame(FrameAlias(i), FRAME_LABEL, w.snapshotId, w.frames[i].id, w.frames[i].timeMs)
  }

  function TextCatalog(w: World, n: nat): map<string, Citation>
    requires n <= |w.transcript|
  {
    if n == 0 then map[]
    else
      var front := TextCatalog(w, n - 1);
      if TextDelivered(w, n - 1) then front[Alias(n - 1) := TextCitation(w, n - 1)] else front
  }

  function FrameCatalog(w: World, n: nat): map<string, Citation>
    requires n <= |w.frames|
  {
    if n == 0 then map[]
    else
      var front := FrameCatalog(w, n - 1);
      if w.frames[n - 1].id in w.seen then front[FrameAlias(n - 1) := FrameCitation(w, n - 1)] else front
  }

  /** `loopCatalog`. */
  function Catalog(w: World): map<string, Citation> {
    TextCatalog(w, |w.transcript|) + FrameCatalog(w, |w.frames|)
  }

  // ----- the author language

  datatype SourcedText = SourcedText(text: string, sources: seq<string>)
  datatype Bullets = Bullets(ordered: bool, items: seq<SourcedText>)
  datatype Snippet = Snippet(text: string, language: string)
  datatype SourcedRow = SourcedRow(cells: seq<string>, sources: seq<string>)
  datatype Grid = Grid(columns: seq<string>, rows: seq<SourcedRow>)
  datatype Picture = Picture(frames: seq<string>, caption: string, note: Note)

  /** What was seen in a frame. */
  datatype Note = Note(visibleFacts: seq<string>, uncertainty: seq<string>)

  datatype Content = Content(
    text: Option<string>, quote: Option<string>, list: Option<Bullets>, code: Option<Snippet>, table: Option<Grid>,
    figure: Option<Picture>, background: Option<string>, sources: seq<string>)

  const NOTHING := Content(None, None, None, None, None, None, None, [])

  datatype Observation = Observation(frame: string, note: Note)
  datatype ScopedLimitation = ScopedLimitation(code: string, message: string, sources: seq<string>)

  /** `rejected` is what the decoder of the wire form already found wrong. */
  datatype AuthorSection = AuthorSection(
    key: string, sectionId: string, title: string, content: seq<Content>, observations: seq<Observation>,
    limitations: seq<ScopedLimitation>, rejected: string)

  datatype Reason =
    | Malformed(message: string) | NoTitleOrContent | NotOneConstructor | EmptyText | NoSources | Undelivered(alias: string)
    | BackgroundWithSources | QuoteNeedsText | QuoteNotContinuous | QuoteUnavailable | QuoteNotVerbatim
    | ListNeedsItems | EmptyItem | EmptyCode | TableNeedsRows | ColumnMismatch | FigureIncomplete | FigureInvalid
    | ObservationInvalid | LimitationEmpty | LimitationCode | LimitationSource
    | InvalidBlocks | NoIdentity | UnknownSection | KeyTaken | EmptyTitle

  datatype Result<T> = Ok(value: T) | Fail(reason: Reason)

  function Constructors(c: Content): nat {
    (if c.text.Some? then 1 else 0) + (if c.quote.Some? then 1 else 0) + (if c.list.Some? then 1 else 0)
    + (if c.code.Some? then 1 else 0) + (if c.table.Some? then 1 else 0) + (if c.figure.Some? then 1 else 0)
    + (if c.background.Some? then 1 else 0)
  }

  // ----- the compiler: one unit

  /** A block with the citations and frame notes it brings. */
  datatype Unit = Unit(block: Block, citations: map<string, Citation>, notes: map<string, Note>)

  function BlockId(sectionId: string, i: nat): string {
    sectionId + "_b" + Decimal(i + 1)
  }

  function ItemId(blockId: string, j: nat): string {
    blockId + "_i" + Decimal(j + 1)
  }

  predicate Blank(s: string) {
    TrimSpace(s) == ""
  }

  function FirstUndelivered(cat: map<string, Citation>, ids: seq<string>): string
    requires exists id | id in ids :: id !in cat
  {
    if ids[0] !in cat then ids[0] else FirstUndelivered(cat, ids[1..])
  }

  function CitationsOf(cat: map<string, Citation>, ids: seq<string>): map<string, Citation>
    requires forall id | id in ids :: id in cat
  {
    map id | id in ids :: cat[id]
  }

  /** At least one source, all of them delivered. */
  function Sourced(cat: map<string, Citation>, ids: seq<string>): Result<map<string, Citation>> {
    if ids == [] then Fail(NoSources)
    else if exists id | id in ids :: id !in cat then Fail(Undelivered(FirstUndelivered(cat, ids)))
    else Ok(CitationsOf(cat, ids))
  }

  function Cites(ids: seq<string>): seq<Inline> {
    seq(|ids|, k requires 0 <= k < |ids| => Cite(ids[k]))
  }

  function Inlines(text: string, ids: seq<string>): seq<Inline> {
    [Prose(text)] + Cites(ids)
  }

  function LastOrdinal(got: seq<Segment>): int {
    if got == [] then -1 else got[|got| - 1].ordinal
  }

  /** The segments among the first `m` that a source stands for, each following the one before. */
  function GatherSource(ts: seq<Segment>, m: nat, ids: seq<string>, first: bool, got: seq<Segment>): Result<seq<Segment>>
    requires m <= |ts|
  {
    if m == 0 then Ok(got)
    else
      var front := GatherSource(ts, m - 1, ids, first, got);
      if front.Fail? || ts[m - 1].id !in ids then front
      else if !first && ts[m - 1].ordinal != LastOrdinal(front.value) + 1 then Fail(QuoteNotContinuous)
      else Ok(front.value + [ts[m - 1]])
  }

  function Gather(w: World, cat: map<string, Citation>, sources: seq<string>, n: nat): Result<seq<Segment>>
    requires n <= |sources| && forall id | id in sources :: id in cat
  {
    if n == 0 then Ok([])
    else
      var front := Gather(w, cat, sources, n - 1);
      if front.Fail? then front
      else if !cat[sources[n - 1]].VideoText? then Fail(QuoteNeedsText)
      else
        var more := GatherSource(w.transcript, |w.transcript|, cat[sources[n - 1]].segmentIds, n == 1, front.value);
        if more.Ok? && more.value == front.value then Fail(QuoteUnavailable) else more
  }

  function SegmentIds(got: seq<Segment>): seq<string> {
    seq(|got|, k requires 0 <= k < |got| => got[k].id)
  }

  function Lines(got: seq<Segment>): string {
    if got == [] then "" else if |got| == 1 then got[0].text else Lines(got[..|got| - 1]) + "\n" + got[|got| - 1].text
  }

  predicate Occurs(text: string, part: string) {
    FirstFrom(text, part, 0) >= 0
  }

  function QuoteId(w: World, text: string, sources: seq<string>): string {
    "q_" + w.quoteHash(text, sources)
  }

  function RangeOf(c: Citation): Range {
    if c.VideoText? && c.range.Some? then c.range.value else Range(0, 0)
  }

  /** The citation of a quotation: the first source, widened to all of them. */
  function QuoteCitation(w: World, cat: map<string, Citation>, text: string, sources: seq<string>, got: seq<Segment>): Citation
    requires sources != [] && forall id | id in sources :: id in cat && cat[id].VideoText?
  {
    var first, last := cat[sources[0]], cat[sources[|sources| - 1]];
    first.(id := QuoteId(w, text, sources), segmentIds := SegmentIds(got),
           range := Some(Range(RangeOf(first).startMs, RangeOf(last).endMs)), quote := Some(text))
  }

  function CompileText(cat: map<string, Citation>, blockId: string, text: string, sources: seq<string>): Result<Unit> {
    if Blank(text) then Fail(EmptyText)
    else
      match Sourced(cat, sources)
      case Fail(reason) => Fail(reason)
      case Ok(citations) => Ok(Unit(Paragraph(blockId, FromVideo, Inlines(text, sources)), citations, map[]))
  }

  function CompileBackground(blockId: string, text: string, sources: seq<string>): Result<Unit> {
    if Blank(text) then Fail(EmptyText)
    else if sources != [] then Fail(BackgroundWithSources)
    else Ok(Unit(Paragraph(blockId, Background, Inlines(text, [])), map[], map[]))
  }

  lemma {:induction false} GatheredIsText(w: World, cat: map<string, Citation>, sources: seq<string>, n: nat)
    requires n <= |sources| && forall id | id in sources :: id in cat
    requires Gather(w, cat, sources, n).Ok?
    ensures forall k | 0 <= k < n :: cat[sources[k]].VideoText?
  {
    if n > 0 {
      GatheredIsText(w, cat, sources, n - 1);
    }
  }

  function CompileQuote(w: World, cat: map<string, Citation>, blockId: string, text: string, sources: seq<string>): Result<Unit> {
    if Blank(text) then Fail(EmptyText)
    else
      match Sourced(cat, sources)
      case Fail(reason) => Fail(reason)
      case Ok(citations) =>
        match Gather(w, cat, sources, |sources|)
        case Fail(reason) => Fail(reason)
        case Ok(got) =>
          if !Occurs(Normalize(Lines(got)), Normalize(text)) then Fail(QuoteNotVerbatim)
          else
            GatheredIsText(w, cat, sources, |sources|);
            var q := QuoteCitation(w, cat, text, sources, got);
            Ok(Unit(Quotation(blockId, Inlines(text, [q.id])), citations[q.id := q], map[]))
  }

  /** The parts of a list or a table with their citations. */
  datatype Parts<T> = Parts(parts: seq<T>, citations: map<string, Citation>)

  function CompileItems(cat: map<string, Citation>, blockId: string, items: seq<SourcedText>, n: nat): Result<Parts<Item>>
    requires n <= |items|
  {
    if n == 0 then Ok(Parts([], map[]))
    else
      match CompileItems(cat, blockId, items, n - 1)
      case Fail(reason) => Fail(reason)
      case Ok(front) =>
        var item := items[n - 1];
        if Blank(item.text) then Fail(EmptyItem)
        else
          match Sourced(cat, item.sources)
          case Fail(reason) => Fail(reason)
          case Ok(citations) =>
            Ok(Parts(front.parts + [Item(ItemId(blockId, n - 1), Inlines(item.text, item.sources))], front.citations + citations))
  }

  function CompileList(cat: map<string, Citation>, blockId: string, list: Bullets, sources: seq<string>): Result<Unit> {
    if list.items == [] || sources != [] then Fail(ListNeedsItems)
    else
      match CompileItems(cat, blockId, list.items, |list.items|)
      case Fail(reason) => Fail(reason)
      case Ok(parts) => Ok(Unit(Listing(blockId, list.ordered, parts.parts), parts.citations, map[]))
  }

  function CompileCode(cat: map<string, Citation>, blockId: string, code: Snippet, sources: seq<string>): Result<Unit> {
    match Sourced(cat, sources)
    case Fail(reason) => Fail(reason)
    case Ok(citations) =>
      if Blank(code.text) then Fail(EmptyCode)
      else Ok(Unit(Code(blockId, code.language, code.text, sources), citations, map[]))
  }

  function CompileRows(cat: map<string, Citation>, width: nat, rows: seq<SourcedRow>, n: nat): Result<Parts<Row>>
    requires n <= |rows|
  {
    if n == 0 then Ok(Parts([], map[]))
    else
      match CompileRows(cat, width, rows, n - 1)
      case Fail(reason) => Fail(reason)
      case Ok(front) =>
        var row := rows[n - 1];
        if |row.cells| != width then Fail(ColumnMismatch)
        else
          match Sourced(cat, row.sources)
          case Fail(reason) => Fail(reason)
          case Ok(citations) => Ok(Parts(front.parts + [Row(row.cells, row.sources)], front.citations + citations))
  }

  function CompileTable(cat: map<string, Citation>, blockId: string, table: Grid, sources: seq<string>): Result<Unit> {
    if table.columns == [] || table.rows == [] || sources != [] then Fail(TableNeedsRows)
    else
      match CompileRows(cat, |table.columns|, table.rows, |table.rows|)
      case Fail(reason) => Fail(reason)
      case Ok(parts) => Ok(Unit(Table(blockId, table.columns, parts.parts), parts.citations, map[]))
  }

  /** A frame follows the one before in time and is shown once. */
  predicate FrameFollows(cat: map<string, Citation>, frames: seq<string>, k: nat)
    requires k < |frames| && forall id | id in frames :: id in cat
  {
    && cat[frames[k]].VideoFrame?
    && (if k > 0 && cat[frames[k - 1]].VideoFrame? then cat[frames[k - 1]].timeMs else -1) <= cat[frames[k]].timeMs
    && frames[k] !in frames[..k]
  }

  predicate FramesFollow(cat: map<string, Citation>, frames: seq<string>)
    requires forall id | id in frames :: id in cat
  {
    forall k | 0 <= k < |frames| :: FrameFollows(cat, frames, k)
  }

  function FrameIds(cat: map<string, Citation>, frames: seq<string>): seq<string>
    requires (forall id | id in frames :: id in cat) && FramesFollow(cat, frames)
  {
    seq(|frames|, k requires 0 <= k < |frames| => assert FrameFollows(cat, frames, k); cat[frames[k]].frameId)
  }

  function CompileFigure(cat: map<string, Citation>, blockId: string, f: Picture, sources: seq<string>): Result<Unit> {
    if f.frames == [] || Blank(f.caption) || f.note.visibleFacts == [] || sources != [] then Fail(FigureIncomplete)
    else
      match Sourced(cat, f.frames)
      case Fail(reason) => Fail(reason)
      case Ok(citations) =>
        if !FramesFollow(cat, f.frames) then Fail(FigureInvalid)
        else
          var frameIds := FrameIds(cat, f.frames);
          Ok(Unit(Figure(blockId, frameIds, if |f.frames| > 1 then Sequence else Single, f.caption, f.frames), citations,
                  map id | id in frameIds :: f.note))
  }

  function CompileUnit(w: World, cat: map<string, Citation>, blockId: string, c: Content): Result<Unit> {
    if Constructors(c) != 1 then Fail(NotOneConstructor)
    else if c.text.Some? then CompileText(cat, blockId, c.text.value, c.sources)
    else if c.quote.Some? then CompileQuote(w, cat, blockId, c.quote.value, c.sources)
    else if c.background.Some? then CompileBackground(blockId, c.background.value, c.sources)
    else if c.list.Some? then CompileList(cat, blockId, c.list.value, c.sources)
    else if c.code.Some? then CompileCode(cat, blockId, c.code.value, c.sources)
    else if c.table.Some? then CompileTable(cat, blockId, c.table.value, c.sources)
    else CompileFigure(cat, blockId, c.figure.value, c.sources)
  }

  // ----- the compiler: a section

  datatype Units = Units(blocks: seq<Block>, citations: map<string, Citation>, notes: map<string, Note>)

  function CompileUnits(w: World, cat: map<string, Citation>, id: string, content: seq<Content>, n: nat): (r: Result<Units>)
    requires n <= |content|
    ensures r.Ok? ==> |r.value.blocks| == n
  {
    if n == 0 then Ok(Units([], map[], map[]))
    else
      match CompileUnits(w, cat, id, content, n - 1)
      case Fail(reason) => Fail(reason)
      case Ok(front) =>
        match CompileUnit(w, cat, BlockId(id, n - 1), content[n - 1])
        case Fail(reason) => Fail(reason)
        case Ok(unit) => Ok(Units(front.blocks + [unit.block], front.citations + unit.citations, front.notes + unit.notes))
  }

  predicate Observed(cat: map<string, Citation>, o: Observation) {
    o.frame in cat && cat[o.frame].VideoFrame? && o.note.visibleFacts != []
  }

  /** Later observations of a frame replace earlier ones. */
  function Observe(cat: map<string, Citation>, notes: map<string, Note>, observations: seq<Observation>, n: nat): map<string, Note>
    requires n <= |observations| && forall k | 0 <= k < n :: Observed(cat, observations[k])
  {
    if n == 0 then notes
    else
      assert Observed(cat, observations[n - 1]);
      Observe(cat, notes, observations, n - 1)[cat[observations[n - 1].frame].frameId := observations[n - 1].note]
  }

  const LIMITATION_CODES := ["visual_unclear", "source_conflict", "not_observed", "partial_text", "media_unavailable", "resource_limit"]

  function LimitationProblem(cat: map<string, Citation>, l: ScopedLimitation): Option<Reason> {
    if Blank(l.message) then Some(LimitationEmpty)
    else if l.code !in LIMITATION_CODES then Some(LimitationCode)
    else if exists id | id in l.sources :: id !in cat then Some(LimitationSource)
    else None
  }

  function CompileLimitations(cat: map<string, Citation>, id: string, ls: seq<ScopedLimitation>, n: nat): Result<Parts<Limitation>>
    requires n <= |ls|
  {
    if n == 0 then Ok(Parts([], map[]))
    else
      match CompileLimitations(cat, id, ls, n - 1)
      case Fail(reason) => Fail(reason)
      case Ok(front) =>
        var l := ls[n - 1];
        match LimitationProblem(cat, l)
        case Some(reason) => Fail(reason)
        case None => Ok(Parts(front.parts + [Limitation(l.code, l.message, [id], l.sources)], front.citations + CitationsOf(cat, l.sources)))
  }

  datatype Compiled = Compiled(
    section: Section, citations: map<string, Citation>, notes: map<string, Note>, limitations: seq<Limitation>)

  const MAX_BLOCKS := 400

  /** `loopCanonicalSection`. */
  function CompileSection(w: World, cat: map<string, Citation>, s: AuthorSection, id: string): Result<Compiled> {
    if s.rejected != "" then Fail(Malformed(s.rejected))
    else if Blank(s.title) || s.content == [] || |s.content| > MAX_BLOCKS then Fail(NoTitleOrContent)
    else
      match CompileUnits(w, cat, id, s.content, |s.content|)
      case Fail(reason) => Fail(reason)
      case Ok(units) =>
        if exists k | 0 <= k < |s.observations| :: !Observed(cat, s.observations[k]) then Fail(ObservationInvalid)
        else
          match CompileLimitations(cat, id, s.limitations, |s.limitations|)
          case Fail(reason) => Fail(reason)
          case Ok(limits) =>
            Ok(Compiled(Section(id, TrimSpace(s.title), units.blocks), units.citations + limits.citations,
                        Observe(cat, units.notes, s.observations, |s.observations|), limits.parts))
  }

  // ----- the projection

  function TextAliases(ts: seq<Segment>, n: nat): map<string, string>
    requires n <= |ts|
  {
    if n == 0 then map[] else TextAliases(ts, n - 1)[ts[n - 1].id := Alias(n - 1)]
  }

  function FrameAliases(frames: seq<Frame>, n: nat): map<string, string>
    requires n <= |frames|
  {
    if n == 0 then map[] else FrameAliases(frames, n - 1)[frames[n - 1].id := FrameAlias(n - 1)]
  }

  function NameFrame(w: World, frameId: string): Option<string> {
    var names := FrameAliases(w.frames, |w.frames|);
    if frameId in names then Some(names[frameId]) else None
  }

  function NameSegment(w: World, segmentId: string): Option<string> {
    var names := TextAliases(w.transcript, |w.transcript|);
    if segmentId in names then Some(names[segmentId]) else None
  }

  function NameSegments(w: World, segmentIds: seq<string>, n: nat, out: seq<string>): Option<seq<string>>
    requires n <= |segmentIds|
  {
    if n == 0 then Some(out)
    else
      var front := NameSegments(w, segmentIds, n - 1, out);
      var name := NameSegment(w, segmentIds[n - 1]);
      if front.None? || name.None? then None else Some(AppendUnique(front.value, name.value))
  }

  function NameCitation(w: World, c: Citation, out: seq<string>): Option<seq<string>> {
    if c.VideoFrame? then
      var name := NameFrame(w, c.frameId);
      if name.None? then None else Some(AppendUnique(out, name.value))
    else if c.VideoText? then NameSegments(w, c.segmentIds, |c.segmentIds|, out)
    else Some(out)
  }

  /** The aliases of the first `n` citations, each once; none when a citation or an alias is missing. */
  function Names(w: World, citations: map<string, Citation>, ids: seq<string>, n: nat): Option<seq<string>>
    requires n <= |ids|
  {
    if n == 0 then Some([])
    else
      var front := Names(w, citations, ids, n - 1);
      if front.None? || ids[n - 1] !in citations then None else NameCitation(w, citations[ids[n - 1]], front.value)
  }

  function AllNames(w: World, citations: map<string, Citation>, ids: seq<string>): Option<seq<string>> {
    Names(w, citations, ids, |ids|)
  }

  function PlainText(content: seq<Inline>): string {
    if content == [] then ""
    else PlainText(content[..|content| - 1]) + if content[|content| - 1].Prose? then content[|content| - 1].text else ""
  }

  function ProjectItems(w: World, citations: map<string, Citation>, items: seq<Item>, n: nat): Option<seq<SourcedText>>
    requires n <= |items|
  {
    if n == 0 then Some([])
    else
      var front := ProjectItems(w, citations, items, n - 1);
      var content := items[n - 1].content;
      var sources := AllNames(w, citations, InlineCitations([], content, |content|));
      if front.None? || sources.None? then None else Some(front.value + [SourcedText(PlainText(content), sources.value)])
  }

  function ProjectRows(w: World, citations: map<string, Citation>, rows: seq<Row>, n: nat): Option<seq<SourcedRow>>
    requires n <= |rows|
  {
    if n == 0 then Some([])
    else
      var front := ProjectRows(w, citations, rows, n - 1);
      var sources := AllNames(w, citations, rows[n - 1].citationIds);
      if front.None? || sources.None? then None else Some(front.value + [SourcedRow(rows[n - 1].cells, sources.value)])
  }

  function NoteOf(notes: map<string, Note>, frameId: string): Note {
    if frameId in notes then notes[frameId] else Note([], [])
  }

  function NameFrames(w: World, frameIds: seq<string>, n: nat): Option<seq<string>>
    requires n <= |frameIds|
  {
    if n == 0 then Some([])
    else
      var front := NameFrames(w, frameIds, n - 1);
      var name := NameFrame(w, frameIds[n - 1]);
      if front.None? || name.None? then None else Some(front.value + [name.value])
  }

  /** What the frames of a figure show together. */
  function Gathered(notes: map<string, Note>, frameIds: seq<string>, n: nat): Note
    requires n <= |frameIds|
  {
    if n == 0 then Note([], [])
    else
      var front, note := Gathered(notes, frameIds, n - 1), NoteOf(notes, frameIds[n - 1]);
      Note(Merge(front.visibleFacts, note.visibleFacts), Merge(front.uncertainty, note.uncertainty))
  }

  function ProjectBlock(w: World, citations: map<string, Citation>, notes: map<string, Note>, b: Block): Option<Content> {
    var sources := AllNames(w, citations, BlockCitations(b));
    if sources.None? then None
    else
      match b
      case Paragraph(_, origin, content) =>
        if origin == Background then Some(NOTHING.(background := Some(PlainText(content))))
        else Some(NOTHING.(text := Some(PlainText(content)), sources := sources.value))
      case Quotation(_, content) => Some(NOTHING.(quote := Some(PlainText(content)), sources := sources.value))
      case Listing(_, ordered, items) =>
        var parts := ProjectItems(w, citations, items, |items|);
        if parts.None? then None else Some(NOTHING.(list := Some(Bullets(ordered, parts.value))))
      case Code(_, language, text, _) => Some(NOTHING.(code := Some(Snippet(text, language)), sources := sources.value))
      case Table(_, columns, rows) =>
        var parts := ProjectRows(w, citations, rows, |rows|);
        if parts.None? then None else Some(NOTHING.(table := Some(Grid(columns, parts.value))))
      case Figure(_, frameIds, _, caption, _) =>
        var frames := NameFrames(w, frameIds, |frameIds|);
        if frames.None? then None
        else Some(NOTHING.(figure := Some(Picture(frames.value, caption, Gathered(notes, frameIds, |frameIds|)))))
  }

  function ProjectBlocks(w: World, citations: map<string, Citation>, notes: map<string, Note>, bs: seq<Block>, n: nat): (r: Option<seq<Content>>)
    requires n <= |bs|
    ensures r.Some? ==> |r.value| == n
  {
    if n == 0 then Some([])
    else
      var front, content := ProjectBlocks(w, citations, notes, bs, n - 1), ProjectBlock(w, citations, notes, bs[n - 1]);
      if front.None? || content.None? then None else Some(front.value + [content.value])
  }

  /** The frames cited by the first `n` of some citations, each once, after those in `pixels`. */
  function Pixels(citations: map<string, Citation>, ids: seq<string>, n: nat, pixels: seq<string>): seq<string>
    requires n <= |ids|
  {
    if n == 0 then pixels
    else
      var front := Pixels(citations, ids, n - 1, pixels);
      if ids[n - 1] in citations && citations[ids[n - 1]].VideoFrame? then AppendUnique(front, citations[ids[n - 1]].frameId) else front
  }

  function SectionPixels(citations: map<string, Citation>, bs: seq<Block>, n: nat): seq<string>
    requires n <= |bs|
  {
    if n == 0 then []
    else
      var ids := BlockCitations(bs[n - 1]);
      Pixels(citations, ids, |ids|, SectionPixels(citations, bs, n - 1))
  }

  function ProjectPixels(w: World, notes: map<string, Note>, pixels: seq<string>): seq<Observation> {
    seq(|pixels|, k requires 0 <= k < |pixels| =>
      Observation(match NameFrame(w, pixels[k]) case Some(name) => name case None => "", NoteOf(notes, pixels[k])))
  }

  predicate ConcernsSection(l: Limitation, id: string) {
    id in l.sectionIds || l.sectionIds == []
  }

  function ProjectLimitations(w: World, a: Article, id: string, n: nat): Option<seq<ScopedLimitation>>
    requires n <= |a.limitations|
  {
    if n == 0 then Some([])
    else
      var front, l := ProjectLimitations(w, a, id, n - 1), a.limitations[n - 1];
      if front.None? || !ConcernsSection(l, id) then front
      else
        var sources := AllNames(w, a.citations, l.citationIds);
        if sources.None? then None else Some(front.value + [ScopedLimitation(l.code, l.message, sources.value)])
  }

  function ProjectSection(w: World, a: Article, notes: map<string, Note>, s: Section): Option<AuthorSection> {
    var content := ProjectBlocks(w, a.citations, notes, s.blocks, |s.blocks|);
    var limitations := ProjectLimitations(w, a, s.id, |a.limitations|);
    if content.None? || limitations.None? then None
    else
      Some(AuthorSection("", s.id, s.title, content.value,
                         ProjectPixels(w, notes, SectionPixels(a.citations, s.blocks, |s.blocks|)), limitations.value, ""))
  }

  /** `loopAuthorDraft`. */
  function ProjectSections(w: World, a: Article, notes: map<string, Note>, n: nat): (r: Option<seq<AuthorSection>>)
    requires n <= |a.sections|
    ensures r.Some? ==> |r.value| == n
  {
    if n == 0 then Some([])
    else
      var front, s := ProjectSections(w, a, notes, n - 1), ProjectSection(w, a, notes, a.sections[n - 1]);
      if front.None? || s.None? then None else Some(front.value + [s.value])
  }
}
