/** The authoring projection: exactly when it keeps the protocol, and that a second pass changes nothing. */
module AuthoringHistory {
  import opened Wrappers
  import opened ToolHistory
  import opened HistorySafety

  // ----- an answer needs its call and a call its answer

  ghost predicate Calls(m: Message, x: string) {
    m.role == Assistant && x in CallIds(m)
  }

  ghost predicate Answers(m: Message, x: string) {
    m.role == Tool && m.toolCallId == x
  }

  lemma {:induction false} UnansweredStaysOpen(ms: seq<Message>, n: nat, k: nat, x: string)
    requires k < n <= |ms| && Run(ms, n).Some? && Calls(ms[k], x) && forall m | m in ms :: !Answers(m, x)
    ensures x in Run(ms, n).value
  {
    hide CallIds;
    if k < n - 1 {
      UnansweredStaysOpen(ms, n - 1, k, x);
      assert !Answers(ms[n - 1], x);
    }
  }

  lemma {:induction false} UncalledIsClosed(ms: seq<Message>, n: nat, x: string)
    requires n <= |ms| && Run(ms, n).Some? && forall m | m in ms :: !Calls(m, x)
    ensures x !in Run(ms, n).value
  {
    hide CallIds;
    if n > 0 {
      UncalledIsClosed(ms, n - 1, x);
      assert !Calls(ms[n - 1], x);
    }
  }

  lemma {:induction false} RunBefore(ms: seq<Message>, n: nat, end: nat)
    requires n <= end <= |ms| && Run(ms, end).Some?
    ensures Run(ms, n).Some?
  {
    if n < end {
      RunBefore(ms, n, end - 1);
    }
  }

  /** In a valid history, what is called is answered and what is answered is called. */
  lemma CallsAndAnswers(ms: seq<Message>, x: string)
    requires Valid(ms)
    ensures (exists m :: m in ms && Calls(m, x)) <==> exists m :: m in ms && Answers(m, x)
  {
    hide Calls, Answers;
    if m :| m in ms && Calls(m, x) {
      if forall m | m in ms :: !Answers(m, x) {
        var k :| 0 <= k < |ms| && ms[k] == m;
        UnansweredStaysOpen(ms, |ms|, k, x);
      }
    }
    if m :| m in ms && Answers(m, x) {
      var k :| 0 <= k < |ms| && ms[k] == m;
      if forall m | m in ms :: !Calls(m, x) {
        RunBefore(ms, k, |ms|);
        RunBefore(ms, k + 1, |ms|);
        UncalledIsClosed(ms, k, x);
        AnswerWasOpen(ms, k, x);
      }
    }
  }

  lemma AnswerWasOpen(ms: seq<Message>, k: nat, x: string)
    requires k < |ms| && Run(ms, k + 1).Some? && Answers(ms[k], x)
    ensures Run(ms, k).Some? && x in Run(ms, k).value
  {
  }

  // ----- exchanges in a valid history

  /** While calls are open, everything since their message is a result of it. */
  ghost predicate Since(ms: seq<Message>, a: nat, n: nat) {
    && a < n <= |ms| && ms[a].role == Assistant && Run(ms, n).Some? && Run(ms, n).value <= CallIds(ms[a])
    && forall k | a < k < n :: ms[k].role == Tool && ms[k].toolCallId in CallIds(ms[a])
  }

  lemma {:induction false} OpenSince(ms: seq<Message>, n: nat)
    requires n <= |ms| && Run(ms, n).Some? && Run(ms, n).value != {}
    ensures exists a: nat :: Since(ms, a, n)
  {
    hide CallIds;
    if ms[n - 1].role == Assistant {
      assert Since(ms, n - 1, n);
    } else {
      OpenSince(ms, n - 1);
      var a: nat :| Since(ms, a, n - 1);
      assert Since(ms, a, n);
    }
  }

  /** No identity of a call is used again. */
  ghost predicate UniqueCalls(ms: seq<Message>) {
    forall i, j, x | 0 <= i < j < |ms| && Calls(ms[i], x) :: !Calls(ms[j], x)
  }

  lemma SameCaller(ms: seq<Message>, i: nat, j: nat, x: string)
    requires UniqueCalls(ms) && i < |ms| && j < |ms| && Calls(ms[i], x) && Calls(ms[j], x)
    ensures i == j
  {
    hide Calls;
  }

  /** Then an answer occurs once. */
  lemma SameAnswer(ms: seq<Message>, k: nat, m: nat, x: string)
    requires Valid(ms) && UniqueCalls(ms) && k <= m < |ms| && Answers(ms[k], x) && Answers(ms[m], x)
    ensures k == m
  {
    hide CallIds, Valid, UniqueCalls;
    ValidPrefix(ms, k);
    ValidPrefix(ms, k + 1);
    ValidPrefix(ms, m);
    ValidPrefix(ms, m + 1);
    OpenSince(ms, k);
    OpenSince(ms, m);
    var a: nat :| Since(ms, a, k);
    var b: nat :| Since(ms, b, m);
    SameCaller(ms, a, b, x);
    if k < m {
      AnsweredOnce(ms, a, k, m, x);
    }
  }

  lemma {:induction false} AnsweredOnce(ms: seq<Message>, a: nat, k: nat, m: nat, x: string)
    requires a < k < m <= |ms| && Run(ms, m).Some? && Answers(ms[k], x) && forall j | a < j < m :: ms[j].role == Tool
    ensures x !in Run(ms, m).value
  {
    hide CallIds;
    if m > k + 1 {
      AnsweredOnce(ms, a, k, m - 1, x);
    }
  }

  // ----- what stays in the output

  lemma {:induction false} DropReadsIncludes(ms: seq<Message>, i: nat, m: Message)
    requires i <= |ms| && m in DropReadsFrom(ms, i)
    ensures m in ms[i..]
    decreases |ms| - i
  {
    if ReadsFields(ms, i) {
      DropReadsIncludes(ms, i + 2, m);
      assert ms[i..] == [ms[i], ms[i + 1]] + ms[i + 2..];
    } else {
      assert ms[i..] == [ms[i]] + ms[i + 1..];
      if m != ms[i] {
        DropReadsIncludes(ms, i + 1, m);
      }
    }
  }

  lemma {:induction false} DropReadsKeeps(ms: seq<Message>, i: nat, k: nat, x: string)
    requires i <= k < |ms|
    requires (Calls(ms[k], x) && forall m | m in ms :: !Answers(m, x)) || (Answers(ms[k], x) && forall m | m in ms :: !Calls(m, x))
    ensures ms[k] in DropReadsFrom(ms, i)
    decreases |ms| - i
  {
    hide CallIds;
    if ReadsFields(ms, i) {
      SingleCall(ms[i]);
      assert Answers(ms[i + 1], ms[i].calls[0].id) && Calls(ms[i], ms[i].calls[0].id);
      if k == i {
        ReadsOne(ms, i, x);
      } else if k > i + 1 {
        DropReadsKeeps(ms, i + 2, k, x);
      }
    } else if k > i {
      DropReadsKeeps(ms, i + 1, k, x);
    }
  }

  lemma ReadsOne(ms: seq<Message>, i: nat, x: string)
    requires i < |ms| && ReadsFields(ms, i) && Calls(ms[i], x)
    ensures Answers(ms[i + 1], x)
  {
    hide CallIds;
    SingleCall(ms[i]);
  }

  /** One side of an exchange is in the output, the other side is not. */
  ghost predicate HalfKept(out: seq<Message>, m: Message, x: string) {
    && m in out
    && ((Calls(m, x) && forall m' | m' in out :: !Answers(m', x)) || (Answers(m, x) && forall m' | m' in out :: !Calls(m', x)))
  }

  lemma HalfKeptIsInvalid(out: seq<Message>, m: Message, x: string)
    requires HalfKept(out, m, x)
    ensures !Valid(out)
  {
    hide Calls, Answers;
    if Valid(out) {
      CallsAndAnswers(out, x);
    }
  }

  /** The messages that would complete the half are all feedback. */
  ghost predicate OtherHalfIsFeedback(c: Codec, ms: seq<Message>, m: Message, x: string) {
    || (Calls(m, x) && forall k | 0 <= k < |ms| && Answers(ms[k], x) :: IsFeedback(c, ms[k]))
    || (Answers(m, x) && forall k | 0 <= k < |ms| && Calls(ms[k], x) :: IsFeedback(c, ms[k]))
  }

  /** So far the output has at most the half that is not feedback. */
  ghost predicate NoOtherHalf(out: seq<Message>, m: Message, x: string) {
    (Calls(m, x) ==> forall m' | m' in out :: !Answers(m', x)) && (Answers(m, x) ==> forall m' | m' in out :: !Calls(m', x))
  }

  lemma OneSide(m: Message, x: string)
    ensures !(Calls(m, x) && Answers(m, x))
  {
  }

  lemma RecordKeepsHalf(s: Progress, tool: string, value: map<string, string>, m: Message, x: string)
    requires NoOtherHalf(s.out, m, x) && (Calls(m, x) || Answers(m, x))
    ensures NoOtherHalf(Record(s, tool, value).out, m, x) && (m in s.out ==> m in Record(s, tool, value).out)
  {
    hide Calls, Answers, ErrorOf, DropReadsFrom;
    OneSide(m, x);
    forall m' | m' in DropReads(s.out) ensures m' in s.out {
      DropReadsIncludes(s.out, 0, m');
      assert s.out[0..] == s.out;
    }
    if m in s.out {
      var k :| 0 <= k < |s.out| && s.out[k] == m;
      DropReadsKeeps(s.out, 0, k, x);
    }
  }

  /** The kept half is never removed again. */
  lemma {:induction false} HalfStays(c: Codec, ms: seq<Message>, i: nat, s: Progress, m: Message, x: string)
    requires i <= |ms| && (Calls(m, x) || Answers(m, x)) && OtherHalfIsFeedback(c, ms, m, x) && NoOtherHalf(s.out, m, x) && m in s.out
    ensures NoOtherHalf(AuthorFrom(c, ms, i, s).out, m, x) && m in AuthorFrom(c, ms, i, s).out
    decreases |ms| - i
  {
    hide Calls, Answers, IsFeedback, IsRecorded, Record, Merged, Body;
    if i < |ms| {
      if IsFeedback(c, ms[i]) {
        HalfStays(c, ms, i + 1, s.(last := Merged(s.last, c.parse(ms[i].content))), m, x);
      } else if IsRecorded(c, ms, i) {
        RecordedIsPair(c, ms, i);
        var tool, value := ms[i].calls[0].name, FieldsOf(c.parse(Body(ms[i + 1])));
        RecordKeepsHalf(s, tool, value, m, x);
        HalfStays(c, ms, i + 2, Record(s, tool, value), m, x);
      } else {
        OneSide(m, x);
        HalfStays(c, ms, i + 1, s.(out := s.out + [ms[i]]), m, x);
      }
    }
  }

  /** The half that is not feedback comes into the output when its turn comes. */
  lemma {:induction false} HalfIsKept(c: Codec, ms: seq<Message>, i: nat, s: Progress, t: nat, x: string)
    requires i <= t < |ms| && (Calls(ms[t], x) || Answers(ms[t], x)) && OtherHalfIsFeedback(c, ms, ms[t], x) && NoOtherHalf(s.out, ms[t], x)
    requires !IsFeedback(c, ms[t]) && !IsRecorded(c, ms, t) && (i < t ==> !IsRecorded(c, ms, t - 1))
    ensures HalfKept(AuthorFrom(c, ms, i, s).out, ms[t], x)
    decreases |ms| - i
  {
    hide Calls, Answers, IsFeedback, IsRecorded, Record, Merged, Body;
    var m := ms[t];
    OneSide(m, x);
    if i == t {
      HalfStays(c, ms, i + 1, s.(out := s.out + [m]), m, x);
    } else if IsFeedback(c, ms[i]) {
      HalfIsKept(c, ms, i + 1, s.(last := Merged(s.last, c.parse(ms[i].content))), t, x);
    } else if IsRecorded(c, ms, i) {
      RecordedIsPair(c, ms, i);
      var tool, value := ms[i].calls[0].name, FieldsOf(c.parse(Body(ms[i + 1])));
      RecordKeepsHalf(s, tool, value, m, x);
      HalfIsKept(c, ms, i + 2, Record(s, tool, value), t, x);
    } else {
      HalfIsKept(c, ms, i + 1, s.(out := s.out + [ms[i]]), t, x);
    }
  }

  lemma FinishKeepsHalf(c: Codec, s: Progress, m: Message, x: string)
    requires HalfKept(s.out, m, x)
    ensures HalfKept(Finish(c, s), m, x)
  {
    var f := FeedbackMessage(c, s.last);
    assert !Calls(f, x) && !Answers(f, x);
  }

  lemma TornHalf(c: Codec, ms: seq<Message>, t: nat, x: string)
    requires t < |ms| && (Calls(ms[t], x) || Answers(ms[t], x)) && OtherHalfIsFeedback(c, ms, ms[t], x)
    requires !IsFeedback(c, ms[t]) && !IsRecorded(c, ms, t) && (t > 0 ==> !IsRecorded(c, ms, t - 1))
    ensures !Valid(Author(c, ms))
  {
    hide Calls, Answers, IsFeedback, IsRecorded, Valid, HalfKept, AuthorFrom;
    var s := Progress([], map[]);
    HalfIsKept(c, ms, 0, s, t, x);
    FinishKeepsHalf(c, AuthorFrom(c, ms, 0, s), ms[t], x);
    HalfKeptIsInvalid(Author(c, ms), ms[t], x);
  }

  // ----- a torn exchange

  /** A result and its call of which exactly one is feedback. */
  ghost predicate TornAt(c: Codec, ms: seq<Message>, a: nat, t: nat) {
    && a < t < |ms| && Calls(ms[a], ms[t].toolCallId) && ms[t].role == Tool
    && IsFeedback(c, ms[t]) != IsFeedback(c, ms[a]) && !IsRecorded(c, ms, a) && !IsRecorded(c, ms, t - 1)
  }

  lemma RecordedEnds(c: Codec, ms: seq<Message>, a: nat)
    requires Valid(ms) && a < |ms| && IsRecorded(c, ms, a)
    ensures Run(ms, a + 2) == Some({})
  {
    hide Valid, IsMutation, Body, RunFrom;
    ValidPrefix(ms, a);
    ValidPrefix(ms, a + 1);
    RunSplits(ms, a);
    ValidSome(ms);
    PairRuns(ms, a, Run(ms, a).value);
    PairEnds(ms, a);
  }

  lemma {:induction false} OpenLater(ms: seq<Message>, n: nat, end: nat)
    requires n <= end <= |ms| && Run(ms, end).Some? && Run(ms, end).value != {} && forall k | n <= k < end :: ms[k].role == Tool
    ensures Run(ms, n) != Some({})
  {
    if n < end {
      RunBefore(ms, n + 1, end);
      OpenBefore(ms, n, end);
    }
  }

  lemma {:induction false} OpenBefore(ms: seq<Message>, n: nat, end: nat)
    requires n < end <= |ms| && Run(ms, end).Some? && forall k | n <= k < end :: ms[k].role == Tool
    ensures Run(ms, n).Some? && Run(ms, n).value != {}
  {
    if n < end - 1 {
      OpenBefore(ms, n, end - 1);
    }
  }

  lemma NotRecordedSince(c: Codec, ms: seq<Message>, a: nat, i: nat)
    requires Valid(ms) && Since(ms, a, i) && Run(ms, i).value != {} && !IsRecorded(c, ms, i - 1)
    ensures !IsRecorded(c, ms, a)
  {
    hide Valid, IsRecorded, CallIds;
    if a + 2 <= i {
      OpenLater(ms, a + 2, i);
      if IsRecorded(c, ms, a) {
        RecordedEnds(c, ms, a);
      }
    }
  }

  lemma NotRecordedTool(c: Codec, ms: seq<Message>, i: nat)
    requires i < |ms| && ms[i].role == Tool
    ensures !IsRecorded(c, ms, i)
  {
  }

  lemma TornExchange(c: Codec, ms: seq<Message>, i: nat)
    requires Valid(ms) && 0 < i < |ms| && !Untorn(c, ms, i)
    ensures exists a: nat, t: nat :: TornAt(c, ms, a, t)
  {
    hide Valid, IsFeedback, IsRecorded, CallIds;
    ValidPrefix(ms, i);
    ValidPrefix(ms, i + 1);
    OpenSince(ms, i);
    var a: nat :| Since(ms, a, i);
    NotRecordedSince(c, ms, a, i);
    if IsFeedback(c, ms[i]) != IsFeedback(c, ms[a]) {
      assert TornAt(c, ms, a, i);
    } else {
      if i - 2 >= a && i - 2 != a {
        NotRecordedTool(c, ms, i - 2);
      }
      assert TornAt(c, ms, a, i - 1);
    }
  }

  lemma TornIsInvalid(c: Codec, ms: seq<Message>, a: nat, t: nat)
    requires Valid(ms) && UniqueCalls(ms) && TornAt(c, ms, a, t)
    ensures !Valid(Author(c, ms))
  {
    hide Valid, IsFeedback, IsRecorded, UniqueCalls, CallIds, Author;
    var x := ms[t].toolCallId;
    if IsFeedback(c, ms[t]) {
      forall k | 0 <= k < |ms| && Answers(ms[k], x) ensures k == t {
        if k <= t {
          SameAnswer(ms, k, t, x);
        } else {
          SameAnswer(ms, t, k, x);
        }
      }
      if a > 0 && IsRecorded(c, ms, a - 1) {
        RecordedIsPair(c, ms, a - 1);
      }
      TornHalf(c, ms, a, x);
    } else {
      forall k | 0 <= k < |ms| && Calls(ms[k], x) ensures k == a {
        SameCaller(ms, k, a, x);
      }
      NotRecordedTool(c, ms, t);
      TornHalf(c, ms, t, x);
    }
  }

  /** The projection of a valid history, in which no call identity is used twice, keeps the protocol
      exactly when no exchange is torn by feedback. */
  lemma AuthoringKeepsProtocolExactly(c: Codec, ms: seq<Message>)
    requires Valid(ms) && UniqueCalls(ms)
    ensures Valid(Author(c, ms)) <==> Whole(c, ms)
  {
    hide Valid, Untorn, UniqueCalls, Author;
    if Whole(c, ms) {
      AuthoringKeepsProtocol(c, ms);
    } else {
      var i: nat :| 0 < i < |ms| && !Untorn(c, ms, i);
      TornExchange(c, ms, i);
      var a: nat, t: nat :| TornAt(c, ms, a, t);
      TornIsInvalid(c, ms, a, t);
    }
  }

  // ----- a second pass

  /** Nothing in the output would be taken out again. */
  ghost predicate Stable(c: Codec, out: seq<Message>) {
    forall k: nat | k < |out| :: !IsFeedback(c, out[k]) && !IsRecorded(c, out, k)
  }

  /** An open call at the end of the output is the last message read. */
  ghost predicate Tail(c: Codec, ms: seq<Message>, i: nat, out: seq<Message>)
    requires i <= |ms|
  {
    out != [] && out[|out| - 1].role == Assistant && CallIds(out[|out| - 1]) != {} ==> i > 0 && ms[i - 1] == out[|out| - 1]
  }

  lemma PairIsLocal(c: Codec, ms: seq<Message>, i: nat, ms': seq<Message>, j: nat)
    requires i + 1 < |ms| && j + 1 < |ms'| && ms[i] == ms'[j] && ms[i + 1] == ms'[j + 1]
    ensures IsRecorded(c, ms, i) == IsRecorded(c, ms', j)
  {
    hide IsMutation, Body;
  }

  lemma PairHasCall(c: Codec, ms: seq<Message>, i: nat)
    requires i < |ms| && IsRecorded(c, ms, i)
    ensures i + 1 < |ms| && ms[i].role == Assistant && CallIds(ms[i]) != {} && ms[i + 1].role == Tool
  {
    hide IsMutation, Body, CallIds;
    SingleCall(ms[i]);
  }

  lemma KeptIsStable(c: Codec, ms: seq<Message>, i: nat, s: Progress)
    requires Valid(ms) && i < |ms| && Follows(c, ms, i, s) && Stable(c, s.out) && Tail(c, ms, i, s.out) && !IsFeedback(c, ms[i])
    ensures Stable(c, s.out + [ms[i]])
  {
    hide Valid, IsFeedback, IsRecorded, CallIds, Run;
    var out := s.out + [ms[i]];
    forall k: nat | k < |out| ensures !IsFeedback(c, out[k]) && !IsRecorded(c, out, k) {
      if k + 1 < |s.out| {
        PairIsLocal(c, s.out, k, out, k);
      } else if IsRecorded(c, out, k) {
        PairHasCall(c, out, k);
        PairIsLocal(c, out, k, ms, i - 1);
      }
    }
  }

  lemma TailIsOpen(ms: seq<Message>)
    requires ms != [] && Run(ms, |ms|) == Some({})
    ensures ms[|ms| - 1].role != Assistant || CallIds(ms[|ms| - 1]) == {}
  {
    hide CallIds;
  }

  lemma FeedbackIsOutside(c: Codec, ms: seq<Message>, i: nat, s: Progress)
    requires Valid(ms) && Whole(c, ms) && i < |ms| && Follows(c, ms, i, s) && IsFeedback(c, ms[i])
    ensures Run(s.out, |s.out|) == Some({})
  {
    hide Valid, IsFeedback, IsRecorded, CallIds;
    ValidPrefix(ms, i);
    ValidPrefix(ms, i + 1);
    if ms[i].role == Tool {
      assert Untorn(c, ms, i);
    }
  }

  lemma FeedbackKeepsTail(c: Codec, ms: seq<Message>, i: nat, s: Progress)
    requires Valid(ms) && Whole(c, ms) && i < |ms| && Follows(c, ms, i, s) && IsFeedback(c, ms[i])
    ensures Tail(c, ms, i + 1, s.out)
  {
    hide Valid, Whole, Follows, IsFeedback, CallIds;
    FeedbackIsOutside(c, ms, i, s);
    if s.out != [] {
      TailIsOpen(s.out);
    }
  }

  lemma {:induction false} DropReadsHead(ms: seq<Message>, i: nat, open: set<string>)
    requires i < |ms| && RunFrom(open, ms, i).Some?
    ensures var d := DropReadsFrom(ms, i); d != [] ==> d[0] == ms[i] || d[0].role != Tool
    decreases |ms| - i
  {
    hide CallIds;
    if ReadsFields(ms, i) && i + 2 < |ms| {
      PairRuns(ms, i, open);
      DropReadsHead(ms, i + 2, {});
      assert ms[i + 2].role != Tool;
    }
  }

  lemma {:induction false} DropReadsStable(c: Codec, ms: seq<Message>, i: nat, open: set<string>)
    requires i <= |ms| && Stable(c, ms) && RunFrom(open, ms, i).Some?
    ensures Stable(c, DropReadsFrom(ms, i))
    decreases |ms| - i
  {
    hide IsFeedback, IsRecorded, CallIds, Step;
    if i < |ms| {
      if ReadsFields(ms, i) {
        PairRuns(ms, i, open);
        DropReadsStable(c, ms, i + 2, {});
      } else {
        DropReadsStable(c, ms, i + 1, Step(open, ms[i]).value);
        var d := DropReadsFrom(ms, i + 1);
        if i + 1 < |ms| {
          DropReadsHead(ms, i + 1, Step(open, ms[i]).value);
        }
        StableCons(c, ms, i, d);
      }
    }
  }

  lemma StableCons(c: Codec, ms: seq<Message>, i: nat, d: seq<Message>)
    requires i < |ms| && Stable(c, ms) && Stable(c, d)
    requires d != [] ==> d[0].role != Tool || (i + 1 < |ms| && d[0] == ms[i + 1])
    ensures Stable(c, [ms[i]] + d)
  {
    hide IsFeedback, IsRecorded, CallIds;
    var out := [ms[i]] + d;
    forall k: nat | k < |out| ensures !IsFeedback(c, out[k]) && !IsRecorded(c, out, k) {
      if IsRecorded(c, out, k) {
        PairHasCall(c, out, k);
        if k > 0 {
          PairIsLocal(c, out, k, d, k - 1);
        } else {
          PairIsLocal(c, out, 0, ms, i);
        }
      }
      if k > 0 {
        assert !IsFeedback(c, d[k - 1]);
      }
    }
  }

  lemma RecordIsStable(c: Codec, ms: seq<Message>, i: nat, s: Progress, tool: string, value: map<string, string>)
    requires Valid(ms) && i + 2 <= |ms| && Run(s.out, |s.out|) == Some({}) && Stable(c, s.out)
    ensures Stable(c, Record(s, tool, value).out) && Tail(c, ms, i + 2, Record(s, tool, value).out)
  {
    hide Valid, Stable, ErrorOf, DropReadsFrom, RunFrom, CallIds;
    RunSplits(s.out, 0);
    DropReadsStable(c, s.out, 0, {});
    DropReadsKeepsRun(s.out);
    var out := Record(s, tool, value).out;
    if out != [] {
      TailIsOpen(out);
    }
  }

  /** The output is stable. */
  lemma {:induction false} AuthorIsStable(c: Codec, ms: seq<Message>, i: nat, s: Progress)
    requires Valid(ms) && Whole(c, ms) && i <= |ms| && Follows(c, ms, i, s) && Stable(c, s.out) && Tail(c, ms, i, s.out)
    ensures Stable(c, AuthorFrom(c, ms, i, s).out)
    decreases |ms| - i
  {
    hide Valid, Whole, Follows, Stable, Tail, IsFeedback, IsRecorded, Record, Merged, Body;
    if i < |ms| {
      if IsFeedback(c, ms[i]) {
        var last := Merged(s.last, c.parse(ms[i].content));
        FeedbackFollows(c, ms, i, s, last);
        FeedbackKeepsTail(c, ms, i, s);
        AuthorIsStable(c, ms, i + 1, s.(last := last));
      } else if IsRecorded(c, ms, i) {
        RecordedIsPair(c, ms, i);
        var tool, value := ms[i].calls[0].name, FieldsOf(c.parse(Body(ms[i + 1])));
        RecordedFollows(c, ms, i, s, tool, value);
        RecordIsStable(c, ms, i, s, tool, value);
        AuthorIsStable(c, ms, i + 2, Record(s, tool, value));
      } else {
        KeptFollows(c, ms, i, s);
        KeptIsStable(c, ms, i, s);
        KeptIsTail(c, ms, i, s.out);
        AuthorIsStable(c, ms, i + 1, s.(out := s.out + [ms[i]]));
      }
    }
  }

  lemma KeptIsTail(c: Codec, ms: seq<Message>, i: nat, out: seq<Message>)
    requires i < |ms|
    ensures Tail(c, ms, i + 1, out + [ms[i]])
  {
  }

  lemma {:induction false} StableScan(c: Codec, ms: seq<Message>, n: nat, i: nat, s: Progress)
    requires i <= n <= |ms| && forall k: nat | k < n :: !IsFeedback(c, ms[k]) && !IsRecorded(c, ms, k)
    ensures AuthorFrom(c, ms, i, s) == AuthorFrom(c, ms, n, s.(out := s.out + ms[i..n]))
    decreases n - i
  {
    hide IsFeedback, IsRecorded, Record, Merged, Body;
    if i < n {
      StableScan(c, ms, n, i + 1, s.(out := s.out + [ms[i]]));
      assert s.out + ms[i..n] == (s.out + [ms[i]]) + ms[i + 1..n];
    } else {
      assert s.out + ms[i..n] == s.out;
    }
  }

  /** A field value that the decoder produced from some text. */
  ghost predicate IsDecoded(c: Codec, value: string) {
    exists text: string, k: string :: c.parse(text).Fields? && k in c.parse(text).fields && c.parse(text).fields[k] == value
  }

  ghost predicate AreDecoded(c: Codec, last: map<string, string>) {
    forall k | k in last :: IsDecoded(c, last[k])
  }

  /** Written feedback can be read, and what is read is written as the same text again. The values
      themselves may come back in another spelling. */
  ghost predicate RoundTrips(c: Codec) {
    forall last: map<string, string> | last != map[] && AreDecoded(c, last) :: ReadsBack(c, last)
  }

  ghost predicate ReadsBack(c: Codec, last: map<string, string>) {
    var p := c.parse(c.encode(last));
    p.Fields? && p.fields != map[] && c.encode(p.fields) == c.encode(last)
  }

  lemma ParsedAreDecoded(c: Codec, text: string)
    ensures AreDecoded(c, FieldsOf(c.parse(text)))
  {
    if c.parse(text).Fields? {
      forall k | k in c.parse(text).fields ensures IsDecoded(c, c.parse(text).fields[k]) {
      }
    }
  }

  lemma MergedAreDecoded(c: Codec, last: map<string, string>, text: string)
    requires AreDecoded(c, last)
    ensures AreDecoded(c, Merged(last, c.parse(text)))
  {
    hide IsDecoded;
    ParsedAreDecoded(c, text);
  }

  lemma RecordedAreDecoded(c: Codec, s: Progress, tool: string, value: map<string, string>)
    requires AreDecoded(c, s.last) && AreDecoded(c, value)
    ensures AreDecoded(c, Record(s, tool, value).last)
  {
    hide IsDecoded, DropReads;
  }

  lemma {:induction false} LastIsDecoded(c: Codec, ms: seq<Message>, i: nat, s: Progress)
    requires i <= |ms| && AreDecoded(c, s.last)
    ensures AreDecoded(c, AuthorFrom(c, ms, i, s).last)
    decreases |ms| - i
  {
    hide AreDecoded, IsFeedback, IsRecorded, Record, Merged, Body;
    if i < |ms| {
      if IsFeedback(c, ms[i]) {
        MergedAreDecoded(c, s.last, ms[i].content);
        LastIsDecoded(c, ms, i + 1, s.(last := Merged(s.last, c.parse(ms[i].content))));
      } else if IsRecorded(c, ms, i) {
        RecordedIsPair(c, ms, i);
        var tool, value := ms[i].calls[0].name, FieldsOf(c.parse(Body(ms[i + 1])));
        ParsedAreDecoded(c, Body(ms[i + 1]));
        RecordedAreDecoded(c, s, tool, value);
        LastIsDecoded(c, ms, i + 2, Record(s, tool, value));
      } else {
        LastIsDecoded(c, ms, i + 1, s.(out := s.out + [ms[i]]));
      }
    }
  }

  lemma FinishedIsFixed(c: Codec, s: Progress)
    requires (s.last != map[] ==> ReadsBack(c, s.last)) && Stable(c, s.out)
    ensures Author(c, Finish(c, s)) == Finish(c, s)
  {
    hide IsRecorded, Record, Body;
    var out, start := Finish(c, s), Progress([], map[]);
    var n := |s.out|;
    forall k: nat | k < n ensures !IsFeedback(c, out[k]) && !IsRecorded(c, out, k) {
      if IsRecorded(c, out, k) {
        PairHasCall(c, out, k);
        PairIsLocal(c, out, k, s.out, k);
      }
    }
    StableScan(c, out, n, 0, start);
    assert start.out + out[0..n] == s.out;
    if s.last != map[] {
      assert IsFeedback(c, out[n]);
      var again := c.parse(c.encode(s.last)).fields;
      assert Merged(map[], Fields(again)) == again;
    }
  }

  /** A second pass changes nothing. */
  lemma AuthoringIsIdempotent(c: Codec, ms: seq<Message>)
    requires Valid(ms) && Whole(c, ms) && RoundTrips(c)
    ensures Author(c, Author(c, ms)) == Author(c, ms)
  {
    hide Valid, Whole, Follows, AuthorFrom, Finish, ReadsBack, IsDecoded;
    var s := Progress([], map[]);
    AtStart(c, ms);
    AuthorIsStable(c, ms, 0, s);
    LastIsDecoded(c, ms, 0, s);
    FinishedIsFixed(c, AuthorFrom(c, ms, 0, s));
  }

  // ----- order

  /** `a` is what remains of `b` after leaving out some messages. */
  ghost predicate Remains(a: seq<Message>, b: seq<Message>) {
    a == [] || (b != [] && ((a[0] == b[0] && Remains(a[1..], b[1..])) || Remains(a, b[1..])))
  }

  lemma {:induction false} RemainsSnoc(a: seq<Message>, b: seq<Message>, m: Message)
    requires Remains(a, b)
    ensures Remains(a + [m], b + [m]) && Remains(a, b + [m])
    decreases |b|
  {
    if b == [] {
      assert ([m] + b)[1..] == [];
    } else {
      assert (b + [m])[1..] == b[1..] + [m];
      if a == [] {
        RemainsSnoc(a, b[1..], m);
      } else if a[0] == b[0] && Remains(a[1..], b[1..]) {
        RemainsSnoc(a[1..], b[1..], m);
        assert (a + [m])[1..] == a[1..] + [m];
      } else {
        RemainsSnoc(a, b[1..], m);
      }
    }
  }

  lemma {:induction false} RemainsTransitive(a: seq<Message>, b: seq<Message>, d: seq<Message>)
    requires Remains(a, b) && Remains(b, d)
    ensures Remains(a, d)
    decreases |d|
  {
    if a != [] {
      if b[0] == d[0] && Remains(b[1..], d[1..]) {
        if a[0] == b[0] && Remains(a[1..], b[1..]) {
          RemainsTransitive(a[1..], b[1..], d[1..]);
        } else {
          RemainsTransitive(a, b[1..], d[1..]);
        }
      } else {
        RemainsTransitive(a, b, d[1..]);
      }
    }
  }

  lemma {:induction false} DropReadsRemains(ms: seq<Message>, i: nat)
    requires i <= |ms|
    ensures Remains(DropReadsFrom(ms, i), ms[i..])
    decreases |ms| - i
  {
    if i < |ms| {
      assert ms[i..][1..] == ms[i + 1..];
      if ReadsFields(ms, i) {
        DropReadsRemains(ms, i + 2);
        assert ms[i + 1..][1..] == ms[i + 2..];
        assert Remains(DropReadsFrom(ms, i), ms[i + 1..]);
      } else {
        DropReadsRemains(ms, i + 1);
        assert DropReadsFrom(ms, i)[1..] == DropReadsFrom(ms, i + 1);
      }
    }
  }

  lemma RecordRemains(s: Progress, tool: string, value: map<string, string>, b: seq<Message>)
    requires Remains(s.out, b)
    ensures Remains(Record(s, tool, value).out, b)
  {
    hide Remains, DropReadsFrom, ErrorOf;
    DropReadsRemains(s.out, 0);
    assert s.out[0..] == s.out;
    RemainsTransitive(DropReads(s.out), s.out, b);
  }

  lemma {:induction false} AuthorRemains(c: Codec, ms: seq<Message>, i: nat, s: Progress)
    requires i <= |ms| && Remains(s.out, ms[..i])
    ensures Remains(AuthorFrom(c, ms, i, s).out, ms)
    decreases |ms| - i
  {
    hide IsFeedback, IsRecorded, Record, Merged, Body, Remains;
    if i == |ms| {
      assert ms[..i] == ms;
    } else {
      assert ms[..i + 1] == ms[..i] + [ms[i]];
      RemainsSnoc(s.out, ms[..i], ms[i]);
      if IsFeedback(c, ms[i]) {
        AuthorRemains(c, ms, i + 1, s.(last := Merged(s.last, c.parse(ms[i].content))));
      } else if IsRecorded(c, ms, i) {
        RecordedIsPair(c, ms, i);
        var tool, value := ms[i].calls[0].name, FieldsOf(c.parse(Body(ms[i + 1])));
        assert ms[..i + 2] == ms[..i + 1] + [ms[i + 1]];
        RemainsSnoc(s.out, ms[..i + 1], ms[i + 1]);
        RecordRemains(s, tool, value, ms[..i + 2]);
        AuthorRemains(c, ms, i + 2, Record(s, tool, value));
      } else {
        AuthorRemains(c, ms, i + 1, s.(out := s.out + [ms[i]]));
      }
    }
  }

  /** What is kept keeps its order; at most one feedback message is added, at the end. */
  lemma AuthoringKeepsOrder(c: Codec, ms: seq<Message>)
    ensures exists s: Progress :: Author(c, ms) == Finish(c, s) && Remains(s.out, ms)
  {
    hide AuthorFrom, Remains, Finish;
    var s := Progress([], map[]);
    assert Remains(s.out, ms[..0]) by { NothingRemains(ms[..0]); }
    AuthorRemains(c, ms, 0, s);
    assert Author(c, ms) == Finish(c, AuthorFrom(c, ms, 0, s));
  }

  lemma NothingRemains(b: seq<Message>)
    ensures Remains([], b)
  {
  }
}
