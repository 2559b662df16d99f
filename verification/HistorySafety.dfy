/** Shortened histories still follow the tool protocol, and lose whole exchanges only. */
module HistorySafety {
  import opened Wrappers
  import opened ToolHistory

  // ----- the protocol from a position on

  function RunFrom(open: set<string>, ms: seq<Message>, i: nat): Option<set<string>>
    requires i <= |ms|
    decreases |ms| - i
  {
    if i == |ms| then Some(open)
    else
      var next := Step(open, ms[i]);
      if next.None? then None else RunFrom(next.value, ms, i + 1)
  }

  lemma {:induction false} RunSplits(ms: seq<Message>, i: nat)
    requires i <= |ms|
    ensures Run(ms, |ms|) == if Run(ms, i).None? then None else RunFrom(Run(ms, i).value, ms, i)
    decreases |ms| - i
  {
    hide Step;
    if i < |ms| {
      RunSplits(ms, i + 1);
    }
  }

  lemma {:induction false} RunFromCons(open: set<string>, m: Message, ms: seq<Message>, i: nat)
    requires i <= |ms|
    ensures RunFrom(open, [m] + ms, i + 1) == RunFrom(open, ms, i)
    decreases |ms| - i
  {
    hide Step;
    if i < |ms| && Step(open, ms[i]).Some? {
      RunFromCons(Step(open, ms[i]).value, m, ms, i + 1);
    }
  }

  lemma {:induction false} RunPrefix(ms: seq<Message>, m: Message, n: nat)
    requires n <= |ms|
    ensures Run(ms + [m], n) == Run(ms, n)
  {
    hide Step;
    if n > 0 {
      RunPrefix(ms, m, n - 1);
    }
  }

  lemma RunSnoc(ms: seq<Message>, m: Message)
    ensures Run(ms + [m], |ms| + 1) == if Run(ms, |ms|).None? then None else Step(Run(ms, |ms|).value, m)
  {
    hide Step;
    RunPrefix(ms, m, |ms|);
  }

  // ----- the observation and draft projections

  lemma {:induction false} AnsweredRun(rule: Rule, ms: seq<Message>, i: nat, j: nat, open: set<string>)
    requires i <= j <= |ms| && (forall k | i <= k < j :: ms[k].role == Tool) && Answered(rule, ms, i, j, open).Some?
    ensures RunFrom(open, ms, i) == RunFrom(Answered(rule, ms, i, j, open).value, ms, j)
    decreases j - i
  {
    hide Body;
    if i < j {
      AnsweredRun(rule, ms, i + 1, j, open - {ms[i].toolCallId});
    }
  }

  lemma {:induction false} ProjectRuns(rule: Rule, ms: seq<Message>, i: nat, open: set<string>)
    requires i <= |ms| && RunFrom(open, ms, i).Some?
    ensures RunFrom(open, ProjectFrom(rule, ms, i), 0) == RunFrom(open, ms, i)
    decreases |ms| - i
  {
    hide Answered, ResultsEnd, CallIds;
    if i < |ms| {
      if Droppable(rule, ms, i) {
        var j := ResultsEnd(ms, i + 1);
        AnsweredRun(rule, ms, i + 1, j, CallIds(ms[i]));
        ProjectRuns(rule, ms, j, {});
      } else {
        ProjectRuns(rule, ms, i + 1, Step(open, ms[i]).value);
        RunFromCons(Step(open, ms[i]).value, ms[i], ProjectFrom(rule, ms, i + 1), 0);
      }
    }
  }

  /** A history that follows the protocol still does after its projection. */
  lemma ProjectionKeepsProtocol(rule: Rule, ms: seq<Message>)
    requires Valid(ms)
    ensures Valid(Project(rule, ms))
  {
    hide ProjectFrom, RunFrom;
    RunSplits(ms, 0);
    ProjectRuns(rule, ms, 0, {});
    RunSplits(Project(rule, ms), 0);
  }

  // ----- what the projection leaves out

  function KeptFrom(rule: Rule, ms: seq<Message>, i: nat): seq<nat>
    requires i <= |ms|
    decreases |ms| - i
  {
    if i == |ms| then []
    else if Droppable(rule, ms, i) then KeptFrom(rule, ms, ResultsEnd(ms, i + 1))
    else [i] + KeptFrom(rule, ms, i + 1)
  }

  /** The message belongs to an exchange that is left out as a whole. */
  ghost predicate InDropped(rule: Rule, ms: seq<Message>, i: nat, k: int) {
    exists a: nat :: i <= a <= k && a < |ms| && Droppable(rule, ms, a) && k < ResultsEnd(ms, a + 1)
  }

  ghost predicate Increasing(kept: seq<nat>, low: nat, high: nat) {
    (forall p | 0 <= p < |kept| :: low <= kept[p] < high) && forall p, q | 0 <= p < q < |kept| :: kept[p] < kept[q]
  }

  lemma {:induction false} KeptAre(rule: Rule, ms: seq<Message>, i: nat)
    requires i <= |ms|
    ensures var kept, out := KeptFrom(rule, ms, i), ProjectFrom(rule, ms, i); Increasing(kept, i, |ms|) && |out| == |kept| && forall p | 0 <= p < |kept| :: out[p] == ms[kept[p]]
    ensures forall k | i <= k < |ms| :: k in KeptFrom(rule, ms, i) || InDropped(rule, ms, i, k)
    ensures forall k | k in KeptFrom(rule, ms, i) :: !InDropped(rule, ms, i, k)
    decreases |ms| - i
  {
    hide Droppable, ResultsEnd;
    if i < |ms| {
      var kept := KeptFrom(rule, ms, i);
      if Droppable(rule, ms, i) {
        var j := ResultsEnd(ms, i + 1);
        KeptAre(rule, ms, j);
        forall k | i <= k < |ms| ensures k in kept || InDropped(rule, ms, i, k) {
          if k >= j && k !in kept {
            DroppedEarlier(rule, ms, i, j, k);
          }
        }
        forall k | k in kept ensures !InDropped(rule, ms, i, k) {
          StaysKept(rule, ms, i, j, k);
        }
      } else {
        KeptAre(rule, ms, i + 1);
        forall k | i <= k < |ms| ensures k in kept || InDropped(rule, ms, i, k) {
          if k > i && k !in KeptFrom(rule, ms, i + 1) {
            DroppedEarlier(rule, ms, i, i + 1, k);
          }
        }
        forall k | k in kept ensures !InDropped(rule, ms, i, k) {
          if k > i {
            StaysKept(rule, ms, i, i + 1, k);
          }
        }
      }
    }
  }

  lemma DroppedEarlier(rule: Rule, ms: seq<Message>, i: nat, j: nat, k: int)
    requires i <= j && InDropped(rule, ms, j, k)
    ensures InDropped(rule, ms, i, k)
  {
    hide Droppable, ResultsEnd;
  }

  /** Exchanges that start before `j` end by `j`. */
  lemma StaysKept(rule: Rule, ms: seq<Message>, i: nat, j: nat, k: int)
    requires j <= k && j <= |ms| && !InDropped(rule, ms, j, k)
    requires forall a: nat | i <= a < j && Droppable(rule, ms, a) :: ResultsEnd(ms, a + 1) <= j
    ensures !InDropped(rule, ms, i, k)
  {
    hide Droppable, ResultsEnd;
  }

  /** Only whole exchanges are left out, and what is kept keeps its order. */
  lemma ProjectionDropsExchanges(rule: Rule, ms: seq<Message>)
    ensures var kept, out := KeptFrom(rule, ms, 0), Project(rule, ms); Increasing(kept, 0, |ms|) && |out| == |kept| && forall p | 0 <= p < |kept| :: out[p] == ms[kept[p]]
    ensures forall k | 0 <= k < |ms| :: k in KeptFrom(rule, ms, 0) <==> !InDropped(rule, ms, 0, k)
  {
    hide KeptFrom, ProjectFrom, InDropped, Increasing;
    KeptAre(rule, ms, 0);
  }

  // ----- candidate field reads

  lemma {:induction false} DropReadsRuns(ms: seq<Message>, i: nat, open: set<string>)
    requires i <= |ms| && RunFrom(open, ms, i).Some?
    ensures RunFrom(open, DropReadsFrom(ms, i), 0) == RunFrom(open, ms, i)
    decreases |ms| - i
  {
    if i < |ms| {
      if ReadsFields(ms, i) {
        PairRuns(ms, i, open);
        DropReadsRuns(ms, i + 2, {});
      } else {
        DropReadsRuns(ms, i + 1, Step(open, ms[i]).value);
        RunFromCons(Step(open, ms[i]).value, ms[i], DropReadsFrom(ms, i + 1), 0);
      }
    }
  }

  lemma SingleCall(m: Message)
    requires |m.calls| == 1
    ensures CallIds(m) == {m.calls[0].id}
  {
    assert Ids(m.calls, 0) == {};
  }

  lemma PairRuns(ms: seq<Message>, i: nat, open: set<string>)
    requires i < |ms| && IsPair(ms, i) && RunFrom(open, ms, i).Some?
    ensures open == {} && RunFrom(open, ms, i) == RunFrom({}, ms, i + 2)
  {
    hide CallIds;
    SingleCall(ms[i]);
    var x := ms[i].calls[0].id;
    assert Step(open, ms[i]) == Some({x});
    assert Step({x}, ms[i + 1]) == Some({x} - {x});
    assert {x} - {x} == {};
  }

  lemma DropReadsKeepsRun(ms: seq<Message>)
    requires Run(ms, |ms|).Some?
    ensures Run(DropReads(ms), |DropReads(ms)|) == Run(ms, |ms|)
  {
    hide DropReadsFrom, RunFrom;
    RunSplits(ms, 0);
    DropReadsRuns(ms, 0, {});
    RunSplits(DropReads(ms), 0);
  }

  // ----- the authoring projection

  /** Where a result and the message before it belong to one exchange, both are feedback or neither is. */
  predicate Untorn(c: Codec, ms: seq<Message>, i: nat)
    requires 0 < i < |ms|
  {
    ms[i].role == Tool && !IsRecorded(c, ms, i - 1) ==> IsFeedback(c, ms[i]) == IsFeedback(c, ms[i - 1])
  }

  ghost predicate Whole(c: Codec, ms: seq<Message>) {
    forall i: nat | 0 < i < |ms| :: Untorn(c, ms, i)
  }

  /** The projection has the open calls of the history, except inside an exchange of feedback. */
  ghost predicate Follows(c: Codec, ms: seq<Message>, i: nat, s: Progress)
    requires i <= |ms|
  {
    && Run(ms, i).Some? && Run(s.out, |s.out|).Some?
    && (i > 0 ==> !IsRecorded(c, ms, i - 1))
    && (Run(ms, i).value != {} ==> i > 0)
    && Run(s.out, |s.out|).value == if i > 0 && IsFeedback(c, ms[i - 1]) then {} else Run(ms, i).value
  }

  lemma ValidPrefix(ms: seq<Message>, i: nat)
    requires Valid(ms) && i <= |ms|
    ensures Run(ms, i).Some? && (i < |ms| ==> Step(Run(ms, i).value, ms[i]) == Run(ms, i + 1))
  {
    hide Step, RunFrom;
    RunSplits(ms, i);
    if i < |ms| {
      RunSplits(ms, i + 1);
    }
  }

  lemma FeedbackFollows(c: Codec, ms: seq<Message>, i: nat, s: Progress, last: map<string, string>)
    requires Valid(ms) && Whole(c, ms) && i < |ms| && Follows(c, ms, i, s) && IsFeedback(c, ms[i])
    ensures Follows(c, ms, i + 1, s.(last := last))
  {
    hide Valid, IsMutation, Body;
    ValidPrefix(ms, i);
    ValidPrefix(ms, i + 1);
    if ms[i].role == Tool {
      assert Untorn(c, ms, i);
    }
  }

  lemma KeptFollows(c: Codec, ms: seq<Message>, i: nat, s: Progress)
    requires Valid(ms) && Whole(c, ms) && i < |ms| && Follows(c, ms, i, s) && !IsFeedback(c, ms[i]) && !IsRecorded(c, ms, i)
    ensures Follows(c, ms, i + 1, s.(out := s.out + [ms[i]]))
  {
    hide Valid, IsMutation, Body, IsRecorded, IsFeedback;
    ValidPrefix(ms, i);
    ValidPrefix(ms, i + 1);
    RunSnoc(s.out, ms[i]);
    if ms[i].role == Tool {
      assert Untorn(c, ms, i);
    }
  }

  lemma RecordedFollows(c: Codec, ms: seq<Message>, i: nat, s: Progress, tool: string, value: map<string, string>)
    requires Valid(ms) && i < |ms| && Follows(c, ms, i, s) && IsRecorded(c, ms, i)
    ensures Run(ms, i) == Some({}) && Run(s.out, |s.out|) == Some({}) && Follows(c, ms, i + 2, Record(s, tool, value))
  {
    hide Valid, IsMutation, Body, DropReads, ErrorOf, RunFrom;
    ValidPrefix(ms, i);
    ValidPrefix(ms, i + 1);
    RunSplits(ms, i);
    ValidSome(ms);
    PairRuns(ms, i, Run(ms, i).value);
    PairEnds(ms, i);
    DropReadsKeepsRun(s.out);
  }

  lemma ValidSome(ms: seq<Message>)
    requires Valid(ms)
    ensures Run(ms, |ms|).Some?
  {
  }

  lemma PairEnds(ms: seq<Message>, i: nat)
    requires i < |ms| && IsPair(ms, i) && Run(ms, i) == Some({})
    ensures Run(ms, i + 2) == Some({}) && !(ms[i + 1].role == Assistant)
  {
    hide CallIds;
    SingleCall(ms[i]);
    var x := ms[i].calls[0].id;
    assert {x} - {x} == {};
  }

  lemma {:induction false} AuthorFollows(c: Codec, ms: seq<Message>, i: nat, s: Progress)
    requires Valid(ms) && Whole(c, ms) && i <= |ms| && Follows(c, ms, i, s)
    ensures Run(AuthorFrom(c, ms, i, s).out, |AuthorFrom(c, ms, i, s).out|) == Some({})
    decreases |ms| - i
  {
    hide Valid, Whole, Follows, IsFeedback, IsRecorded, Record, Merged, Body;
    if i == |ms| {
      AtEnd(c, ms, s);
    } else if IsFeedback(c, ms[i]) {
      var last := Merged(s.last, c.parse(ms[i].content));
      FeedbackFollows(c, ms, i, s, last);
      AuthorFollows(c, ms, i + 1, s.(last := last));
    } else if IsRecorded(c, ms, i) {
      RecordedIsPair(c, ms, i);
      RecordedFollows(c, ms, i, s, ms[i].calls[0].name, FieldsOf(c.parse(Body(ms[i + 1]))));
      AuthorFollows(c, ms, i + 2, Record(s, ms[i].calls[0].name, FieldsOf(c.parse(Body(ms[i + 1])))));
    } else {
      KeptFollows(c, ms, i, s);
      AuthorFollows(c, ms, i + 1, s.(out := s.out + [ms[i]]));
    }
  }

  lemma RecordedIsPair(c: Codec, ms: seq<Message>, i: nat)
    requires i < |ms| && IsRecorded(c, ms, i)
    ensures IsPair(ms, i)
  {
  }

  lemma AtEnd(c: Codec, ms: seq<Message>, s: Progress)
    requires Valid(ms) && Follows(c, ms, |ms|, s)
    ensures Run(s.out, |s.out|) == Some({})
  {
  }

  lemma FinishRuns(c: Codec, s: Progress)
    requires Run(s.out, |s.out|) == Some({})
    ensures Valid(Finish(c, s))
  {
    RunSnoc(s.out, FeedbackMessage(c, s.last));
  }

  /** The authoring projection keeps the protocol when no exchange is torn by feedback. */
  lemma AuthoringKeepsProtocol(c: Codec, ms: seq<Message>)
    requires Valid(ms) && Whole(c, ms)
    ensures Valid(Author(c, ms))
  {
    hide Valid, Whole, AuthorFrom;
    assert Follows(c, ms, 0, Progress([], map[])) by { AtStart(c, ms); }
    AuthorFollows(c, ms, 0, Progress([], map[]));
    FinishRuns(c, AuthorFrom(c, ms, 0, Progress([], map[])));
  }

  lemma AtStart(c: Codec, ms: seq<Message>)
    ensures Follows(c, ms, 0, Progress([], map[]))
  {
  }
}
