/** Text as the article engine handles it: whitespace normalization, substring search and
    the decimal numerals that occur in aliases, block identities and report paths.
    A Go string is modelled as the sequence of its characters. */
module Text {

  /** `unicode.IsSpace`. */
  predicate IsSpace(c: char) {
    || c == ' ' || '\t' <= c <= '\r'
    || c == '\U{85}' || c == '\U{A0}' || c == '\U{1680}' || '\U{2000}' <= c <= '\U{200A}'
    || c == '\U{2028}' || c == '\U{2029}' || c == '\U{202F}' || c == '\U{205F}' || c == '\U{3000}'
  }

  predicate SpaceFree(s: string) {
    forall c | c in s :: !IsSpace(c)
  }

  predicate IsWord(s: string) {
    s != "" && SpaceFree(s)
  }

  /** The length of the longest space-free prefix. */
  function WordLength(s: string): (n: nat)
    ensures n <= |s| && SpaceFree(s[..n])
    ensures n < |s| ==> IsSpace(s[n])
  {
    if s == "" || IsSpace(s[0]) then 0
    else
      var n := WordLength(s[1..]);
      assert s[..n + 1] == [s[0]] + s[1..][..n];
      n + 1
  }

  /** `strings.Fields`. */
  function Fields(s: string): (words: seq<string>)
    ensures forall w | w in words :: IsWord(w)
    decreases |s|
  {
    if s == "" then []
    else if IsSpace(s[0]) then Fields(s[1..])
    else
      var n := WordLength(s);
      [s[..n]] + Fields(s[n..])
  }

  /** `strings.Join(parts, " ")`. */
  function Join(parts: seq<string>): string {
    if parts == [] then ""
    else if |parts| == 1 then parts[0]
    else parts[0] + " " + Join(parts[1..])
  }

  /** The shared `strings.Join(strings.Fields(s), " ")` of quotes, originals and labels. */
  function Normalize(s: string): string {
    Join(Fields(s))
  }

  /** What normalization delivers: every white space is one inner blank. */
  ghost predicate Normalized(s: string) {
    && (forall i {:trigger IsSpace(s[i])} | 0 <= i < |s| && IsSpace(s[i]) :: s[i] == ' ' && 0 < i < |s| - 1)
    && (forall i, j {:trigger IsSpace(s[i]), IsSpace(s[j])} | 0 <= i < |s| && 0 <= j < |s| && j == i + 1 && IsSpace(s[i]) :: !IsSpace(s[j]))
  }

  lemma {:induction false} JoinedWordsAreNormalized(words: seq<string>)
    requires forall w | w in words :: IsWord(w)
    ensures Normalized(Join(words)) && (Join(words) == "" <==> words == [])
  {
    if |words| == 1 {
      assert words[0] in words;
    } else if |words| > 1 {
      var head, rest := words[0], Join(words[1..]);
      assert IsWord(head) by { assert head in words; }
      JoinedWordsAreNormalized(words[1..]);
      var s := head + " " + rest;
      assert !IsSpace(rest[0]);
      assert forall i | 0 <= i < |head| :: !IsSpace(head[i]) && s[i] == head[i];
      forall i | 0 <= i < |s| && IsSpace(s[i])
        ensures s[i] == ' ' && 0 < i < |s| - 1 && !IsSpace(s[i + 1])
      {
        if i > |head| {
          assert s[i] == rest[i - |head| - 1];
        }
      }
    }
  }

  lemma NormalizeIsNormalized(s: string)
    ensures Normalized(Normalize(s))
  {
    JoinedWordsAreNormalized(Fields(s));
  }

  lemma AfterBlank(s: string, n: nat)
    requires Normalized(s) && n < |s| && IsSpace(s[n])
    ensures s[n] == ' ' && s[n + 1..] != "" && !IsSpace(s[n + 1]) && Normalized(s[n + 1..])
  {
    hide IsSpace;
    assert s[n] == ' ' && n < |s| - 1;
    var rest := s[n + 1..];
    assert !IsSpace(s[n + 1]);
    forall i | 0 <= i < |rest| && IsSpace(rest[i])
      ensures rest[i] == ' ' && 0 < i < |rest| - 1
    {
      assert rest[i] == s[n + 1 + i];
    }
    forall i, j | 0 <= i < |rest| && 0 <= j < |rest| && j == i + 1 && IsSpace(rest[i])
      ensures !IsSpace(rest[j])
    {
      assert rest[i] == s[n + 1 + i] && rest[j] == s[n + 1 + j];
    }
  }

  lemma FieldsAfterWord(s: string, n: nat)
    requires n < |s| && n > 0 && WordLength(s) == n && !IsSpace(s[0])
    ensures Fields(s) == [s[..n]] + Fields(s[n + 1..])
  {
    assert IsSpace(s[n]);
    hide IsSpace, WordLength;
    assert s[n..][1..] == s[n + 1..];
    assert Fields(s[n..]) == Fields(s[n..][1..]);
  }

  lemma WholeWord(s: string)
    requires s != "" && WordLength(s) == |s| && !IsSpace(s[0])
    ensures Fields(s) == [s]
  {
    hide IsSpace, WordLength;
    assert s[..|s|] == s && s[|s|..] == "";
  }

  lemma NormalizedStart(s: string)
    requires Normalized(s) && s != ""
    ensures !IsSpace(s[0]) && WordLength(s) > 0
  {
    assert !IsSpace(s[0]) by {
      hide IsSpace, WordLength;
      assert IsSpace(s[0]) ==> 0 < 0;
    }
    hide IsSpace, SpaceFree, Normalized;
  }

  lemma WordBlankRest(s: string, n: nat)
    requires n < |s| && s[n] == ' '
    ensures s == s[..n] + " " + s[n + 1..]
  {
  }

  lemma {:induction false} NormalizeFixesNormalized(s: string)
    requires Normalized(s)
    ensures Normalize(s) == s
    decreases |s|
  {
    assert Fields("") == [];
    hide IsSpace, WordLength, Fields, Normalized, SpaceFree, IsWord;
    if s != "" {
      NormalizedStart(s);
      var n := WordLength(s);
      if n < |s| {
        AfterBlank(s, n);
        FieldsAfterWord(s, n);
        NormalizeFixesNormalized(s[n + 1..]);
        JoinSplit([s[..n]], Fields(s[n + 1..]));
        WordBlankRest(s, n);
      } else {
        WholeWord(s);
      }
    }
  }

  // ----- the words of a text

  /** A stretch without white space that cannot be longer. */
  ghost predicate IsField(s: string, i: nat, j: nat) {
    && i < j <= |s| && SpaceFree(s[i..j])
    && (i > 0 ==> IsSpace(s[i - 1])) && (j < |s| ==> IsSpace(s[j]))
  }

  ghost predicate Covers(at: seq<(nat, nat)>, i: nat) {
    exists k :: 0 <= k < |at| && at[k].0 <= i < at[k].1
  }

  /** The words of the text from position `p` on, where they stand. */
  ghost predicate AreFields(s: string, p: nat, words: seq<string>, at: seq<(nat, nat)>) {
    && |at| == |words| && (forall k | 0 <= k < |at| :: IsField(s, at[k].0, at[k].1) && p <= at[k].0 && words[k] == s[at[k].0..at[k].1])
    && (forall k, l | 0 <= k < l < |at| :: at[k].1 < at[l].0)
    && forall i: nat | p <= i < |s| && !IsSpace(s[i]) :: Covers(at, i)
  }

  lemma WordIsField(s: string, p: nat, n: nat)
    requires p < |s| && (p > 0 ==> IsSpace(s[p - 1])) && 0 < n <= |s| - p && WordLength(s[p..]) == n
    ensures IsField(s, p, p + n)
  {
    hide IsSpace;
    assert s[p..][..n] == s[p..p + n];
    assert p + n < |s| ==> s[p..][n] == s[p + n];
  }

  lemma FieldStartsDark(s: string, i: nat, j: nat)
    requires IsField(s, i, j)
    ensures !IsSpace(s[i])
  {
    assert s[i..j][0] == s[i];
  }

  lemma CoversMore(s: string, p: nat, q: nat, rest: seq<string>, at: seq<(nat, nat)>)
    requires p < q && AreFields(s, q, rest, at)
    ensures forall i: nat | p <= i < |s| && !IsSpace(s[i]) :: Covers([(p, q)] + at, i)
  {
    hide IsSpace, IsField;
    var at' := [(p, q)] + at;
    forall i: nat | p <= i < |s| && !IsSpace(s[i]) ensures Covers(at', i) {
      if i < q {
        assert at'[0].0 <= i < at'[0].1;
      } else {
        assert Covers(at, i);
        var k :| 0 <= k < |at| && at[k].0 <= i < at[k].1;
        assert at'[k + 1] == at[k];
      }
    }
  }

  lemma FieldStands(s: string, p: nat, n: nat, rest: seq<string>, at: seq<(nat, nat)>)
    requires p < |s| && (p > 0 ==> IsSpace(s[p - 1])) && 0 < n <= |s| - p && WordLength(s[p..]) == n
    requires AreFields(s, p + n, rest, at)
    ensures AreFields(s, p, [s[p..p + n]] + rest, [(p, p + n)] + at)
  {
    hide IsSpace, WordLength, IsField, Covers;
    var at', q := [(p, p + n)] + at, p + n;
    WordIsField(s, p, n);
    FieldEndsLight(s, p, q);
    CoversMore(s, p, q, rest, at);
    forall k, l | 0 <= k < l < |at'| ensures at'[k].1 < at'[l].0 {
      if k == 0 {
        FieldStartsDark(s, at[l - 1].0, at[l - 1].1);
        FieldFits(s, at[l - 1].0, at[l - 1].1);
      } else {
        assert at'[k] == at[k - 1] && at'[l] == at[l - 1];
      }
    }
  }

  lemma FieldEndsLight(s: string, i: nat, j: nat)
    requires IsField(s, i, j)
    ensures j < |s| ==> IsSpace(s[j])
  {
    hide IsSpace;
  }

  lemma FieldFits(s: string, i: nat, j: nat)
    requires IsField(s, i, j)
    ensures i < j <= |s|
  {
  }

  /** MAIN RESULT: `Fields` are exactly the words of the text, in their order. */
  lemma {:induction false} FieldsExactly(s: string, p: nat) returns (at: seq<(nat, nat)>)
    requires p <= |s| && (p == 0 || IsSpace(s[p - 1]) || (p < |s| ==> IsSpace(s[p])))
    ensures AreFields(s, p, Fields(s[p..]), at)
    decreases |s| - p
  {
    hide IsSpace, WordLength, AreFields;
    if p == |s| {
      at := [];
      NoFields(s, p);
    } else if IsSpace(s[p]) {
      assert s[p..][1..] == s[p + 1..];
      at := FieldsExactly(s, p + 1);
      SpaceSkipped(s, p, Fields(s[p + 1..]), at);
    } else {
      var n := WordLength(s[p..]);
      WordStarts(s[p..]);
      assert s[p..][n..] == s[p + n..] && s[p..][..n] == s[p..p + n];
      assert p + n < |s| ==> s[p..][n] == s[p + n];
      at := FieldsExactly(s, p + n);
      FieldStands(s, p, n, Fields(s[p + n..]), at);
      at := [(p, p + n)] + at;
    }
  }

  lemma NoFields(s: string, p: nat)
    requires p == |s|
    ensures AreFields(s, p, [], [])
  {
  }

  lemma SpaceSkipped(s: string, p: nat, words: seq<string>, at: seq<(nat, nat)>)
    requires p < |s| && IsSpace(s[p]) && AreFields(s, p + 1, words, at)
    ensures AreFields(s, p, words, at)
  {
    hide IsSpace, Covers;
  }

  lemma WordStarts(s: string)
    requires s != "" && !IsSpace(s[0])
    ensures WordLength(s) > 0
  {
  }

  /** `strings.Contains`. */
  ghost predicate Contains(text: string, part: string) {
    exists at :: OccursAt(text, part, at)
  }

  predicate OccursAt(text: string, part: string, at: int) {
    0 <= at && at + |part| <= |text| && text[at..at + |part|] == part
  }

  /** `strings.Index(text[from:], part)`, as a position in `text`; -1 when there is none. */
  function FirstFrom(text: string, part: string, from: nat): (at: int)
    ensures at == -1 || (from <= at && OccursAt(text, part, at))
    ensures forall k | from <= k && OccursAt(text, part, k) :: 0 <= at <= k
    decreases |text| - from
  {
    if from + |part| > |text| then -1
    else if OccursAt(text, part, from) then from
    else FirstFrom(text, part, from + 1)
  }

  /** `strings.TrimSpace`. */
  function TrimSpace(s: string): string {
    if s == "" then s
    else if IsSpace(s[0]) then TrimSpace(s[1..])
    else if IsSpace(s[|s| - 1]) then TrimSpace(s[..|s| - 1])
    else s
  }

  lemma SliceOfDrop(s: string, at: nat, lo: nat, hi: nat)
    requires at <= |s| && lo <= hi <= |s| - at
    ensures s[at..][lo..hi] == s[at + lo..at + hi]
  {
    var left, right := s[at..][lo..hi], s[at + lo..at + hi];
    assert |left| == |right| && forall i | 0 <= i < |left| :: left[i] == right[i] == s[at + lo + i];
  }

  lemma SliceOfSlice(s: string, at: nat, end: nat, lo: nat, hi: nat)
    requires at <= end <= |s| && lo <= hi <= end - at
    ensures s[at..end][lo..hi] == s[at + lo..at + hi]
  {
    var left, right := s[at..end][lo..hi], s[at + lo..at + hi];
    assert |left| == |right| && forall i | 0 <= i < |left| :: left[i] == right[i] == s[at + lo + i];
  }

  lemma DropOfDrop(s: string, at: nat, k: nat)
    requires at + k <= |s|
    ensures s[at..][k..] == s[at + k..]
  {
  }

  lemma {:induction false} JoinSplit(front: seq<string>, back: seq<string>)
    requires front != [] && back != []
    ensures Join(front + back) == Join(front) + " " + Join(back)
  {
    if |front| == 1 {
      assert (front + back)[1..] == back;
    } else {
      assert (front + back)[1..] == front[1..] + back;
      JoinSplit(front[1..], back);
    }
  }

  /** Text is cut in one way at the first of a separator. */
  lemma CutAt(sep: char, a: string, rest: string, b: string, rest': string)
    requires sep !in a && sep !in b && a + [sep] + rest == b + [sep] + rest'
    ensures a == b && rest == rest'
  {
    if |a| < |b| {
      SeparatorInside(sep, a, rest, b, rest');
    } else if |b| < |a| {
      SeparatorInside(sep, b, rest', a, rest);
    } else {
      var s, t := a + [sep] + rest, b + [sep] + rest';
      assert s[..|a|] == a && t[..|b|] == b;
      assert s[|a| + 1..] == rest && t[|b| + 1..] == rest';
    }
  }

  lemma SeparatorInside(sep: char, a: string, rest: string, b: string, rest': string)
    requires |a| < |b| && a + [sep] + rest == b + [sep] + rest'
    ensures sep in b
  {
    assert (a + [sep] + rest)[|a|] == sep && (b + [sep] + rest')[|a|] == b[|a|];
  }

  // ----- decimal numerals

  /** `strconv.Itoa` of a natural number, by counting. */
  function Decimal(n: nat): string {
    if n == 0 then "0" else Successor(Decimal(n - 1))
  }

  function Successor(s: string): string {
    if s == "" then "1"
    else
      var front, last := s[..|s| - 1], s[|s| - 1];
      if last == '9' then Successor(front) + "0"
      else if last < '9' then front + [last + 1 as char]
      else s
  }

  predicate IsNumeral(s: string) {
    forall i | 0 <= i < |s| :: '0' <= s[i] <= '9'
  }

  function Value(s: string): int {
    if s == "" then 0 else 10 * Value(s[..|s| - 1]) + s[|s| - 1] as int - '0' as int
  }

  lemma {:induction false} SuccessorCounts(s: string)
    requires IsNumeral(s)
    ensures IsNumeral(Successor(s)) && Value(Successor(s)) == Value(s) + 1
  {
    if s != "" {
      var front, last, next := s[..|s| - 1], s[|s| - 1], Successor(s);
      SuccessorCounts(front);
      assert next[..|next| - 1] == if last == '9' then Successor(front) else front;
    }
  }

  lemma {:induction false} DecimalCounts(n: nat)
    ensures IsNumeral(Decimal(n)) && Value(Decimal(n)) == n && Decimal(n) != ""
  {
    if n > 0 {
      DecimalCounts(n - 1);
      SuccessorCounts(Decimal(n - 1));
    } else {
      assert Value("0") == 10 * Value("") + 0;
    }
  }

  lemma DecimalInjective(m: nat, n: nat)
    requires Decimal(m) == Decimal(n)
    ensures m == n
  {
    DecimalCounts(m);
    DecimalCounts(n);
  }

  /** `fmt.Sprint("t", i+1)`: the alias of the segment at position `i`. */
  function Alias(i: nat): string {
    "t" + Decimal(i + 1)
  }

  lemma AliasInjective(i: nat, j: nat)
    requires Alias(i) == Alias(j)
    ensures i == j
  {
    hide Decimal;
    var m, n := Decimal(i + 1), Decimal(j + 1);
    assert ("t" + m)[1..] == m && ("t" + n)[1..] == n;
    DecimalInjective(i + 1, j + 1);
  }

  // ----- identities

  const ID_LENGTH := 32

  predicate IsHex(c: char) {
    '0' <= c <= '9' || 'a' <= c <= 'f'
  }

  /** `domain.ID()`: sixteen random bytes in hexadecimal. */
  predicate IsId(s: string) {
    |s| == ID_LENGTH && forall i | 0 <= i < |s| :: IsHex(s[i])
  }

  /** The identity of a stored transcript segment: that of its snapshot and its ordinal. */
  ghost predicate IsSegmentId(s: string) {
    exists snapshot: string, n: nat :: IsId(snapshot) && s == snapshot + "_" + Decimal(n)
  }

  lemma SegmentIdStart(s: string)
    requires IsSegmentId(s)
    ensures s != "" && IsHex(s[0])
  {
    hide Decimal;
    var snapshot: string, n: nat :| IsId(snapshot) && s == snapshot + "_" + Decimal(n);
    assert s[0] == snapshot[0];
  }

  /** An alias starts with a letter that no identity starts with. */
  lemma AliasIsNoSegmentId(i: nat)
    ensures !IsSegmentId(Alias(i))
  {
    hide Decimal, IsSegmentId;
    if IsSegmentId(Alias(i)) {
      SegmentIdStart(Alias(i));
    }
  }

  /** `len(s)`: the number of bytes in the UTF-8 encoding. */
  function Utf8Length(s: string): nat {
    if s == "" then 0
    else
      (if s[0] < '\U{80}' then 1 else if s[0] < '\U{800}' then 2 else if s[0] < '\U{10000}' then 3 else 4)
      + Utf8Length(s[1..])
  }
}
