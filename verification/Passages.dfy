/** A reader's selection of consecutive passages, validated against the immutable article
    (internal/domain/passage.go). */
module Passages {
  import opened Text

  datatype Block = Block(id: string, text: string)
  datatype Section = Section(id: string, blocks: seq<Block>)
  datatype Passage = Passage(sectionId: string, blockId: string, quote: string)

  /** The wire form: a section anchor, the legacy single passage and the passage list. */
  datatype QuestionContext = QuestionContext(sectionId: string, passage: seq<Passage>, passages: seq<Passage>)

  datatype Verdict = Accepted | UnknownSection | Conflict | TooLong | Blank | Discontinuous | NotInArticle

  /** One nonempty normalized block of the article, with its address. */
  datatype BlockText = BlockText(sectionId: string, blockId: string, text: string)

  function Selected(c: QuestionContext): seq<Passage> {
    if c.passages != [] then c.passages else c.passage
  }

  function SectionTexts(section: string, blocks: seq<Block>): (out: seq<BlockText>)
    ensures forall b | b in out :: b.text != "" && Normalized(b.text)
  {
    if blocks == [] then []
    else
      NormalizeIsNormalized(blocks[0].text);
      var text := Normalize(blocks[0].text);
      (if text == "" then [] else [BlockText(section, blocks[0].id, text)]) + SectionTexts(section, blocks[1..])
  }

  function ArticleTexts(sections: seq<Section>): (out: seq<BlockText>)
    ensures forall b | b in out :: b.text != "" && Normalized(b.text)
  {
    if sections == [] then [] else SectionTexts(sections[0].id, sections[0].blocks) + ArticleTexts(sections[1..])
  }

  function Texts(blocks: seq<BlockText>): (out: seq<string>)
    ensures |out| == |blocks|
    ensures forall i | 0 <= i < |blocks| :: out[i] == blocks[i].text
  {
    seq(|blocks|, i requires 0 <= i < |blocks| => blocks[i].text)
  }

  function Quotes(parts: seq<Passage>): (out: seq<string>)
    ensures |out| == |parts|
    ensures forall i | 0 <= i < |parts| :: out[i] == Normalize(parts[i].quote)
  {
    seq(|parts|, i requires 0 <= i < |parts| => Normalize(parts[i].quote))
  }

  /** Block `at` is the first one with the address the passage names. */
  ghost predicate Addresses(p: Passage, blocks: seq<BlockText>, at: nat) {
    && at < |blocks| && blocks[at].sectionId == p.sectionId && blocks[at].blockId == p.blockId
    && forall j | 0 <= j < at :: blocks[j].sectionId != p.sectionId || blocks[j].blockId != p.blockId
  }

  predicate IsSuffix(text: string, part: string) {
    |part| <= |text| && text[|text| - |part|..] == part
  }

  /** Partial edges are allowed; interior blocks are quoted in full; a single quote lies anywhere. */
  ghost predicate QuoteFits(quotes: seq<string>, i: nat, text: string)
    requires i < |quotes|
  {
    if |quotes| == 1 then Contains(text, quotes[0])
    else if i == 0 then IsSuffix(text, quotes[0])
    else if i == |quotes| - 1 then quotes[i] <= text
    else quotes[i] == text
  }

  /** The selection is what a reader marks by dragging once over the rendered article. */
  ghost predicate ContinuousFrom(parts: seq<Passage>, blocks: seq<BlockText>, start: nat) {
    && start + |parts| <= |blocks|
    && forall i | 0 <= i < |parts| ::
      Addresses(parts[i], blocks, start + i) && QuoteFits(Quotes(parts), i, blocks[start + i].text)
  }

  ghost predicate Continuous(parts: seq<Passage>, blocks: seq<BlockText>) {
    exists start :: ContinuousFrom(parts, blocks, start)
  }

  ghost predicate WithinLimit(quotes: seq<string>, maxChars: nat) {
    && (forall i | 0 <= i < |quotes| :: quotes[i] != "")
    && |Join(quotes)| <= maxChars
  }

  ghost predicate Acceptable(sections: seq<Section>, c: QuestionContext, maxChars: nat) {
    && (c.sectionId == "" || exists s | s in sections :: s.id == c.sectionId)
    && (c.passage == [] || c.passages == [])
    && (Selected(c) == [] || (WithinLimit(Quotes(Selected(c)), maxChars) && Continuous(Selected(c), ArticleTexts(sections))))
  }

  /** The running total of the length check, for the first `n` parts. */
  function QuotedChars(quotes: seq<string>, n: nat): nat
    requires n <= |quotes|
  {
    if n == 0 then 0 else QuotedChars(quotes, n - 1) + |quotes[n - 1]|
  }

  lemma {:induction false} JoinedLength(quotes: seq<string>, n: nat)
    requires 0 < n <= |quotes|
    ensures |Join(quotes[..n])| == n - 1 + QuotedChars(quotes, n)
  {
    if n > 1 {
      JoinedLength(quotes, n - 1);
      JoinSplit(quotes[..n - 1], [quotes[n - 1]]);
      assert quotes[..n - 1] + [quotes[n - 1]] == quotes[..n];
    }
  }

  lemma {:induction false} CharsMonotone(quotes: seq<string>, m: nat, n: nat)
    requires m <= n <= |quotes|
    ensures QuotedChars(quotes, m) <= QuotedChars(quotes, n)
  {
    if m < n {
      CharsMonotone(quotes, m, n - 1);
    }
  }

  lemma {:induction false} NonemptyChars(quotes: seq<string>, n: nat)
    requires n <= |quotes| && forall i | 0 <= i < |quotes| :: quotes[i] != ""
    ensures n <= QuotedChars(quotes, n)
  {
    if n > 0 {
      NonemptyChars(quotes, n - 1);
    }
  }

  /** Both directions of `ValidateQuestionPassages`: it accepts exactly the selections a
      reader can make by one continuous drag within the length limit. */
  method ValidateQuestionPassages(sections: seq<Section>, c: QuestionContext, maxChars: nat) returns (v: Verdict)
    requires |c.passage| <= 1
    ensures v == Accepted <==> Acceptable(sections, c, maxChars)
  {
    if c.sectionId != "" {
      var found := false;
      for i := 0 to |sections|
        invariant found <==> exists j | 0 <= j < i :: sections[j].id == c.sectionId
      {
        found := found || sections[i].id == c.sectionId;
      }
      if !found {
        return UnknownSection;
      }
    }
    if c.passage != [] && c.passages != [] {
      return Conflict;
    }
    var parts := Selected(c);
    if parts == [] {
      return Accepted;
    }
    v := CheckLength(Quotes(parts), maxChars);
    if v == Accepted {
      v := CheckContinuity(parts, ArticleTexts(sections));
    }
  }

  /** Each nonempty part takes at least one character, so an overlong list needs no scan. */
  method CheckLength(quotes: seq<string>, maxChars: nat) returns (v: Verdict)
    requires quotes != []
    ensures v.Accepted? || v.TooLong? || v.Blank?
    ensures v == Accepted <==> WithinLimit(quotes, maxChars)
  {
    CountsDecide(quotes, maxChars);
    if |quotes| > maxChars {
      return TooLong;
    }
    var total := |quotes| - 1;
    for i := 0 to |quotes|
      invariant forall j | 0 <= j < i :: quotes[j] != ""
      invariant total == |quotes| - 1 + QuotedChars(quotes, i) <= maxChars
    {
      if quotes[i] == "" {
        return Blank;
      }
      total := total + |quotes[i]|;
      if total > maxChars {
        CharsMonotone(quotes, i + 1, |quotes|);
        return TooLong;
      }
    }
    return Accepted;
  }

  lemma CountsDecide(quotes: seq<string>, maxChars: nat)
    requires quotes != []
    ensures WithinLimit(quotes, maxChars) <==>
      (forall i | 0 <= i < |quotes| :: quotes[i] != "") && |quotes| - 1 + QuotedChars(quotes, |quotes|) <= maxChars
    ensures WithinLimit(quotes, maxChars) ==> |quotes| <= maxChars
  {
    JoinedLength(quotes, |quotes|);
    assert quotes[..|quotes|] == quotes;
    if WithinLimit(quotes, maxChars) { NonemptyChars(quotes, |quotes|); }
  }

  method CheckContinuity(parts: seq<Passage>, blocks: seq<BlockText>) returns (v: Verdict)
    requires parts != []
    ensures v.Accepted? || v.Discontinuous? || v.NotInArticle?
    ensures v == Accepted <==> Continuous(parts, blocks)
  {
    var quotes := Quotes(parts);
    ghost var start: int := 0;
    var previous := -1;
    for i := 0 to |parts|
      invariant i > 0 ==> 0 <= start && previous == start + i - 1 < |blocks|
      invariant forall j | 0 <= j < i :: Addresses(parts[j], blocks, start + j) && QuoteFits(quotes, j, blocks[start + j].text)
    {
      var position := -1;
      for index := 0 to |blocks|
        invariant position == -1
        invariant forall j | 0 <= j < index :: blocks[j].sectionId != parts[i].sectionId || blocks[j].blockId != parts[i].blockId
      {
        if blocks[index].sectionId == parts[i].sectionId && blocks[index].blockId == parts[i].blockId {
          position := index;
          break;
        }
      }
      if position >= 0 { assert Addresses(parts[i], blocks, position); }
      if i == 0 { start := position; } else { StartDetermined(parts, blocks, start); }
      if position < 0 || (i > 0 && position != previous + 1) {
        return Discontinuous;
      }
      if i == 0 { StartDetermined(parts, blocks, start); }
      var text, quote := blocks[position].text, quotes[i];
      var found := FirstFrom(text, quote, 0) >= 0;
      assert found <==> Contains(text, quote);
      if !found {
        if QuoteFits(quotes, i, text) { FitsContained(quotes, i, text); }
        return NotInArticle;
      }
      if |parts| > 1 {
        var matches := text == quote;
        if i == 0 {
          matches := IsSuffix(text, quote);
        } else if i == |parts| - 1 {
          matches := quote <= text;
        }
        assert matches <==> QuoteFits(quotes, i, text);
        if !matches {
          return NotInArticle;
        }
      }
      previous := position;
    }
    assert ContinuousFrom(parts, blocks, start);
    return Accepted;
  }

  /** The first part fixes where a continuous selection starts. */
  lemma StartDetermined(parts: seq<Passage>, blocks: seq<BlockText>, start: nat)
    requires parts != [] && Addresses(parts[0], blocks, start)
    ensures forall other: nat :: ContinuousFrom(parts, blocks, other) ==> other == start
  {
    forall other: nat | ContinuousFrom(parts, blocks, other) ensures other == start {
      assert Addresses(parts[0], blocks, other + 0);
    }
  }

  lemma FitsContained(quotes: seq<string>, i: nat, text: string)
    requires i < |quotes| && QuoteFits(quotes, i, text)
    ensures Contains(text, quotes[i])
  {
    if |quotes| > 1 {
      if i == 0 {
        assert OccursAt(text, quotes[i], |text| - |quotes[i]|);
      } else {
        assert text[0..|quotes[i]|] == quotes[i];
        assert OccursAt(text, quotes[i], 0);
      }
    }
  }

  // ----- what acceptance means for the reader

  /** Everything after the first quote of a continuous selection is a prefix of the article text there. */
  lemma {:induction false} TailIsPrefix(parts: seq<Passage>, blocks: seq<BlockText>, start: nat, i: nat)
    requires |parts| > 1 && 0 < i < |parts| && ContinuousFrom(parts, blocks, start)
    ensures Join(Quotes(parts)[i..]) <= Join(Texts(blocks)[start + i..])
    decreases |parts| - i
  {
    var quotes, texts := Quotes(parts), Texts(blocks);
    var q, t := quotes[i..], texts[start + i..];
    assert QuoteFits(quotes, i, blocks[start + i].text);
    if i == |parts| - 1 {
      assert Join(q) == quotes[i] <= texts[start + i];
    } else {
      TailIsPrefix(parts, blocks, start, i + 1);
      assert q[1..] == quotes[i + 1..] && t[1..] == texts[start + i + 1..];
    }
  }

  /** The text from block `start` on occurs in the whole text, preceded by complete blocks. */
  lemma TextFrom(texts: seq<string>, start: nat) returns (at: nat)
    requires start < |texts|
    ensures at + |Join(texts[start..])| == |Join(texts)| && Join(texts)[at..] == Join(texts[start..])
  {
    if start == 0 {
      assert texts[0..] == texts;
      at := 0;
    } else {
      JoinSplit(texts[..start], texts[start..]);
      assert texts[..start] + texts[start..] == texts;
      at := |Join(texts[..start])| + 1;
    }
  }

  /** MAIN RESULT: an accepted selection, joined by single blanks, is one contiguous substring
      of the article's nonempty block texts joined the same way, and fits the limit. */
  lemma AcceptedSelectionIsContiguous(sections: seq<Section>, c: QuestionContext, maxChars: nat)
    requires Acceptable(sections, c, maxChars) && Selected(c) != []
    ensures var text := Join(Quotes(Selected(c)));
      Contains(Join(Texts(ArticleTexts(sections))), text) && 0 < |text| <= maxChars
  {
    var parts, blocks := Selected(c), ArticleTexts(sections);
    ContinuousIsContained(parts, blocks);
    var quotes := Quotes(parts);
    assert |Join(quotes)| >= |quotes[0]| by { JoinHead(quotes); }
  }

  lemma ContinuousIsContained(parts: seq<Passage>, blocks: seq<BlockText>)
    requires parts != [] && Continuous(parts, blocks)
    ensures Contains(Join(Texts(blocks)), Join(Quotes(parts)))
  {
    var quotes, texts := Quotes(parts), Texts(blocks);
    var start: nat :| ContinuousFrom(parts, blocks, start);
    assert QuoteFits(quotes, 0, blocks[start + 0].text);
    JoinHead(quotes);
    if |parts| == 1 {
      var k :| OccursAt(texts[start], quotes[0], k);
      OccursFrom(texts, start, quotes[0], k, "");
    } else {
      TailIsPrefix(parts, blocks, start, 1);
      assert texts[start..][1..] == texts[start + 1..];
      OccursFrom(texts, start, quotes[0], |texts[start]| - |quotes[0]|, TailText(quotes));
    }
  }

  /** What follows the first part: a blank and the joined rest, or nothing. */
  function TailText(parts: seq<string>): string
    requires parts != []
  {
    if |parts| == 1 then "" else " " + Join(parts[1..])
  }

  lemma JoinHead(parts: seq<string>)
    requires parts != []
    ensures Join(parts) == parts[0] + TailText(parts)
  {
  }

  /** A part found in block `start`, followed by a prefix of what follows that block, occurs in
      the whole text. */
  lemma OccursFrom(texts: seq<string>, start: nat, part: string, k: nat, rest: string)
    requires start < |texts| && OccursAt(texts[start], part, k)
    requires rest != "" ==> k + |part| == |texts[start]| && rest <= TailText(texts[start..])
    ensures Contains(Join(texts), part + rest)
  {
    var here, back := texts[start], texts[start..];
    var at := TextFrom(texts, start);
    JoinHead(back);
    var s := Join(back);
    assert s == here + TailText(back);
    var n := |part + rest|;
    assert s[k..k + n] == part + rest by {
      assert s[k..k + |part|] == here[k..k + |part|];
      if rest != "" {
        assert s[|here|..|here| + |rest|] == rest;
        assert s[k..k + n] == s[k..|here|] + s[|here|..|here| + |rest|];
      } else {
        assert part + rest == part;
      }
    }
    var whole := Join(texts);
    SliceOfDrop(whole, at, k, k + n);
    assert OccursAt(Join(texts), part + rest, at + k);
  }
}
