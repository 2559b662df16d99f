/** Articles in their persisted form (internal/domain/types.go, json.go): a paragraph or a quotation
    keeps its citations inline only. */
module ArticleBlocks {
  import opened Lists
  import opened Wrappers

  datatype Inline = Prose(text: string) | Link(text: string, url: string) | Cite(id: string)
  datatype Item = Item(id: string, content: seq<Inline>)
  datatype Row = Row(cells: seq<string>, citationIds: seq<string>)
  datatype Origin = FromVideo | Background
  datatype Layout = Single | Sequence

  datatype Block =
    | Paragraph(id: string, origin: Origin, content: seq<Inline>)
    | Quotation(id: string, content: seq<Inline>)
    | Listing(id: string, ordered: bool, items: seq<Item>)
    | Code(id: string, language: string, text: string, citationIds: seq<string>)
    | Table(id: string, columns: seq<string>, rows: seq<Row>)
    | Figure(id: string, frameIds: seq<string>, layout: Layout, caption: string, citationIds: seq<string>)

  datatype Section = Section(id: string, title: string, blocks: seq<Block>)

  datatype Range = Range(startMs: int, endMs: int)

  datatype Citation =
    | VideoText(id: string, display: string, snapshotId: string, segmentIds: seq<string>, range: Option<Range>,
                quote: Option<string>, textOrigin: string)
    | VideoFrame(id: string, display: string, snapshotId: string, frameId: string, timeMs: int)
    | Elsewhere(id: string)  // passages and external references

  datatype Limitation = Limitation(code: string, message: string, sectionIds: seq<string>, citationIds: seq<string>)
  datatype Quality = Standard | WithLimitations

  datatype Article = Article(
    title: string, sections: seq<Section>, citations: map<string, Citation>, limitations: seq<Limitation>, quality: Quality)

  /** The citations of the first `n` inlines, each once, after those in `ids`. */
  function InlineCitations(ids: seq<string>, content: seq<Inline>, n: nat): seq<string>
    requires n <= |content|
  {
    if n == 0 then ids
    else
      var front := InlineCitations(ids, content, n - 1);
      if content[n - 1].Cite? then AppendUnique(front, content[n - 1].id) else front
  }

  function ItemCitations(items: seq<Item>, n: nat): seq<string>
    requires n <= |items|
  {
    if n == 0 then [] else InlineCitations(ItemCitations(items, n - 1), items[n - 1].content, |items[n - 1].content|)
  }

  function RowCitations(rows: seq<Row>, n: nat): seq<string>
    requires n <= |rows|
  {
    if n == 0 then [] else RowCitations(rows, n - 1) + rows[n - 1].citationIds
  }

  /** `blockCitationIDs`. */
  function BlockCitations(b: Block): seq<string> {
    match b
    case Paragraph(_, _, content) => InlineCitations([], content, |content|)
    case Quotation(_, content) => InlineCitations([], content, |content|)
    case Listing(_, _, items) => ItemCitations(items, |items|)
    case Code(_, _, _, citationIds) => citationIds
    case Table(_, _, rows) => RowCitations(rows, |rows|)
    case Figure(_, _, _, _, citationIds) => citationIds
  }
}
