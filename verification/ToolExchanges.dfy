/** Which exchanges a shortened history loses, and what its last feedback says: both stated on the messages
    themselves (internal/investigator/context.go, draft.go, authoring.go). */
module ToolExchanges {
  import opened Wrappers
  import opened ToolHistory
  import opened HistorySafety

  // ----- finished exchanges

  /** The calls of message `i` are all of the rule's tools, and the results up to `j` answer each of them
      once, well. */
  ghost predicate IsFinished(rule: Rule, ms: seq<Message>, i: nat, j: nat) {
    && i < j <= |ms| && ms[i].role == Assistant && ms[i].calls != []
    && (forall call | call in ms[i].calls :: call.name in rule.tools)
    && (forall k | i < k < j :: ms[k].role == Tool && rule.good(Body(ms[k])))
    && (forall k | i < k < j :: exists call :: call in ms[i].calls && call.id == ms[k].toolCallId)
    && (forall call | call in ms[i].calls :: IsAnswered(ms, i, j, call.id))
    && (forall k, l | i < k < l < j :: ms[k].toolCallId != ms[l].toolCallId)
    && if j == |ms| then rule.dropLast else ms[j].role != Tool
  }

  ghost predicate IsAnswered(ms: seq<Message>, i: nat, j: nat, id: string)
    requires j <= |ms|
  {
    exists k :: i < k < j && ms[k].toolCallId == id
  }

  ghost predicate AllGood(rule: Rule, ms: seq<Message>, i: nat, j: nat, open: set<string>)
    requires i <= j <= |ms|
  {
    && (forall k | i <= k < j :: ms[k].toolCallId in open && rule.good(Body(ms[k])))
    && forall k, l | i <= k < l < j :: ms[k].toolCallId != ms[l].toolCallId
  }

  lemma {:induction false} AnsweredExactly(rule: Rule, ms: seq<Message>, i: nat, j: nat, open: set<string>)
    requires i <= j <= |ms|
    ensures Answered(rule, ms, i, j, open).Some? <==> AllGood(rule, ms, i, j, open)
    ensures Answered(rule, ms, i, j, open).Some? ==>
              forall id :: id in Answered(rule, ms, i, j, open).value <==> id in open && forall k | i <= k < j :: ms[k].toolCallId != id
    decreases j - i
  {
    hide Body;
    if i < j {
      AnsweredExactly(rule, ms, i + 1, j, open - {ms[i].toolCallId});
      if AllGood(rule, ms, i, j, open) {
        assert AllGood(rule, ms, i + 1, j, open - {ms[i].toolCallId});
      }
    }
  }

  lemma {:induction false} IdsAre(calls: seq<Call>, n: nat, id: string)
    requires n <= |calls|
    ensures id in Ids(calls, n) <==> exists k :: 0 <= k < n && calls[k].id == id
  {
    if n > 0 {
      IdsAre(calls, n - 1, id);
    }
  }

  lemma CallIdsAre(m: Message)
    ensures forall id :: id in CallIds(m) <==> exists call :: call in m.calls && call.id == id
  {
    forall id ensures id in CallIds(m) <==> exists call :: call in m.calls && call.id == id {
      IdsAre(m.calls, |m.calls|, id);
    }
  }

  lemma FinishedEndsThere(rule: Rule, ms: seq<Message>, i: nat, j: nat)
    requires IsFinished(rule, ms, i, j)
    ensures j == ResultsEnd(ms, i + 1)
  {
    hide Body;
  }

  lemma NoneOpen(rule: Rule, ms: seq<Message>, i: nat, j: nat)
    requires i < j <= |ms| && Answered(rule, ms, i + 1, j, CallIds(ms[i])).Some?
    ensures Answered(rule, ms, i + 1, j, CallIds(ms[i])).value == {} <==> forall call | call in ms[i].calls :: IsAnswered(ms, i, j, call.id)
  {
    hide Body, CallIds, Answered;
    AnsweredExactly(rule, ms, i + 1, j, CallIds(ms[i]));
    CallIdsAre(ms[i]);
    var left := Answered(rule, ms, i + 1, j, CallIds(ms[i])).value;
    if left == {} {
      forall call | call in ms[i].calls ensures IsAnswered(ms, i, j, call.id) {
        assert call.id !in left;
      }
    }
  }

  lemma DroppableExactly(rule: Rule, ms: seq<Message>, i: nat)
    requires i < |ms|
    ensures Droppable(rule, ms, i) <==> IsFinished(rule, ms, i, ResultsEnd(ms, i + 1))
  {
    hide Body, CallIds, Answered;
    var j := ResultsEnd(ms, i + 1);
    AnsweredExactly(rule, ms, i + 1, j, CallIds(ms[i]));
    CallIdsAre(ms[i]);
    if Answered(rule, ms, i + 1, j, CallIds(ms[i])).Some? {
      NoneOpen(rule, ms, i, j);
    }
  }

  ghost predicate IsInFinished(rule: Rule, ms: seq<Message>, k: nat) {
    exists i: nat, j: nat :: IsFinished(rule, ms, i, j) && i <= k < j
  }

  lemma DroppedIsFinished(rule: Rule, ms: seq<Message>, k: nat)
    ensures InDropped(rule, ms, 0, k) <==> IsInFinished(rule, ms, k)
  {
    hide Droppable, IsFinished, ResultsEnd;
    if InDropped(rule, ms, 0, k) {
      var a: nat :| a <= k && a < |ms| && Droppable(rule, ms, a) && k < ResultsEnd(ms, a + 1);
      DroppableExactly(rule, ms, a);
    }
    if IsInFinished(rule, ms, k) {
      var i: nat, j: nat :| IsFinished(rule, ms, i, j) && i <= k < j;
      FinishedStart(rule, ms, i, j);
      FinishedEndsThere(rule, ms, i, j);
      DroppableExactly(rule, ms, i);
    }
  }

  lemma FinishedStart(rule: Rule, ms: seq<Message>, i: nat, j: nat)
    requires IsFinished(rule, ms, i, j)
    ensures i < |ms|
  {
    hide Body;
  }

  /** MAIN RESULT: what is left out are exactly the finished exchanges of the rule. */
  lemma FinishedExchangesGo(rule: Rule, ms: seq<Message>)
    ensures exists kept: seq<nat> ::
              Increasing(kept, 0, |ms|) && |Project(rule, ms)| == |kept| && (forall p | 0 <= p < |kept| :: Project(rule, ms)[p] == ms[kept[p]])
              && forall k: nat | k < |ms| :: k in kept <==> !IsInFinished(rule, ms, k)
  {
    hide KeptFrom, ProjectFrom, InDropped, IsInFinished, Increasing;
    ProjectionDropsExchanges(rule, ms);
    var kept := KeptFrom(rule, ms, 0);
    forall k: nat | k < |ms| ensures k in kept <==> !IsInFinished(rule, ms, k) {
      DroppedIsFinished(rule, ms, k);
    }
  }

  // ----- the last feedback

  /** The engine looks at this message itself, not at it as the result of a recorded exchange. */
  ghost predicate IsRead(c: Codec, ms: seq<Message>, e: nat) {
    e < |ms| && (e > 0 ==> !IsRecorded(c, ms, e - 1))
  }

  ghost predicate IsNotice(c: Codec, ms: seq<Message>, e: nat) {
    IsRead(c, ms, e) && IsFeedback(c, ms[e])
  }

  ghost predicate IsOutcome(c: Codec, ms: seq<Message>, e: nat) {
    IsRead(c, ms, e) && IsRecorded(c, ms, e)
  }

  function ValueAt(c: Codec, ms: seq<Message>, e: nat): map<string, string> {
    if e + 1 < |ms| && c.parse(Body(ms[e + 1])).Fields? then c.parse(Body(ms[e + 1])).fields else map[]
  }

  predicate IsError(value: map<string, string>) {
    "error" in value && value["error"] != "null"
  }

  /** Everything said before is forgotten: the feedback is cleared, or a mutation succeeds or fails. */
  ghost predicate Forgets(c: Codec, ms: seq<Message>, e: nat) {
    || (IsNotice(c, ms, e) && c.parse(ms[e].content).Null?)
    || (IsOutcome(c, ms, e) && (IsError(ValueAt(c, ms, e)) || ms[e].calls[0].name != OBSERVE))
  }

  /** A field of a notice, or of the report of an error. */
  ghost predicate Says(c: Codec, ms: seq<Message>, e: nat, f: string, v: string) {
    || (IsNotice(c, ms, e) && c.parse(ms[e].content).Fields? && f in c.parse(ms[e].content).fields && c.parse(ms[e].content).fields[f] == v)
    || (IsOutcome(c, ms, e) && IsError(ValueAt(c, ms, e)) && f in REPORTED && f in ValueAt(c, ms, e) && ValueAt(c, ms, e)[f] == v)
  }

  ghost predicate Speaks(c: Codec, ms: seq<Message>, e: nat, f: string) {
    exists v :: Says(c, ms, e, f, v)
  }

  /** The field was last said with this value, and not forgotten since. */
  ghost predicate LastSaid(c: Codec, ms: seq<Message>, n: nat, f: string, v: string) {
    exists e: nat :: e < n && Says(c, ms, e, f, v) && forall d: nat | e < d < n :: !Forgets(c, ms, d) && !Speaks(c, ms, d, f)
  }

  predicate IsEntry(last: map<string, string>, f: string, v: string) {
    f in last && last[f] == v
  }

  ghost predicate Tells(c: Codec, ms: seq<Message>, n: nat, last: map<string, string>) {
    forall f, v :: IsEntry(last, f, v) <==> LastSaid(c, ms, n, f, v)
  }

  lemma NothingSaid(c: Codec, ms: seq<Message>, n: nat, f: string, v: string)
    requires !Forgets(c, ms, n) && !Speaks(c, ms, n, f)
    ensures LastSaid(c, ms, n + 1, f, v) <==> LastSaid(c, ms, n, f, v)
  {
    hide Forgets, Says;
    if LastSaid(c, ms, n, f, v) {
      var e: nat :| e < n && Says(c, ms, e, f, v) && forall d: nat | e < d < n :: !Forgets(c, ms, d) && !Speaks(c, ms, d, f);
      assert e < n + 1 && forall d: nat | e < d < n + 1 :: !Forgets(c, ms, d) && !Speaks(c, ms, d, f);
    }
    if LastSaid(c, ms, n + 1, f, v) {
      var e: nat :| e < n + 1 && Says(c, ms, e, f, v) && forall d: nat | e < d < n + 1 :: !Forgets(c, ms, d) && !Speaks(c, ms, d, f);
      assert e < n by { assert e == n ==> Speaks(c, ms, n, f); }
    }
  }

  /** What a message says, and nothing older about the field. */
  lemma JustSaid(c: Codec, ms: seq<Message>, n: nat, f: string, v: string)
    requires Speaks(c, ms, n, f) || Forgets(c, ms, n)
    ensures LastSaid(c, ms, n + 1, f, v) <==> Says(c, ms, n, f, v)
  {
    hide Forgets, Says;
    if LastSaid(c, ms, n + 1, f, v) {
      var e: nat :| e < n + 1 && Says(c, ms, e, f, v) && forall d: nat | e < d < n + 1 :: !Forgets(c, ms, d) && !Speaks(c, ms, d, f);
      assert e == n;
    }
  }

  lemma SilenceTells(c: Codec, ms: seq<Message>, n: nat, last: map<string, string>)
    requires Tells(c, ms, n, last) && !IsNotice(c, ms, n) && !IsOutcome(c, ms, n)
    ensures Tells(c, ms, n + 1, last)
  {
    hide IsNotice, IsOutcome, LastSaid;
    forall f, v ensures IsEntry(last, f, v) <==> LastSaid(c, ms, n + 1, f, v) {
      NothingSaid(c, ms, n, f, v);
    }
  }

  lemma NoticeTells(c: Codec, ms: seq<Message>, n: nat, last: map<string, string>)
    requires Tells(c, ms, n, last) && IsNotice(c, ms, n)
    ensures Tells(c, ms, n + 1, Merged(last, c.parse(ms[n].content)))
  {
    hide LastSaid, IsRecorded, IsFeedback;
    assert !IsOutcome(c, ms, n) by { NoticeIsNoOutcome(c, ms, n); }
    var p := c.parse(ms[n].content);
    var last' := Merged(last, p);
    forall f, v ensures IsEntry(last', f, v) <==> LastSaid(c, ms, n + 1, f, v) {
      if p.Fields? && f in p.fields {
        assert Says(c, ms, n, f, p.fields[f]);
        JustSaid(c, ms, n, f, v);
      } else if p.Null? {
        JustSaid(c, ms, n, f, v);
      } else {
        NothingSaid(c, ms, n, f, v);
      }
    }
  }

  lemma NoticeIsNoOutcome(c: Codec, ms: seq<Message>, n: nat)
    requires IsNotice(c, ms, n)
    ensures !IsOutcome(c, ms, n) && c.parse(ms[n].content) != Bad
  {
  }

  lemma OutcomeTells(c: Codec, ms: seq<Message>, n: nat, s: Progress)
    requires Tells(c, ms, n, s.last) && IsOutcome(c, ms, n)
    ensures Tells(c, ms, n + 1, Record(s, ms[n].calls[0].name, ValueAt(c, ms, n)).last)
  {
    hide LastSaid, IsFeedback, DropReads, ValueAt, IsRecorded;
    assert !IsNotice(c, ms, n) by { OutcomeIsNoNotice(c, ms, n); }
    OutcomeHasCall(c, ms, n);
    var value, tool := ValueAt(c, ms, n), ms[n].calls[0].name;
    var last' := Record(s, tool, value).last;
    forall f, v ensures IsEntry(last', f, v) <==> LastSaid(c, ms, n + 1, f, v) {
      if IsError(value) || tool != OBSERVE {
        JustSaid(c, ms, n, f, v);
      } else {
        NothingSaid(c, ms, n, f, v);
      }
    }
  }

  lemma OutcomeIsNoNotice(c: Codec, ms: seq<Message>, n: nat)
    requires IsOutcome(c, ms, n)
    ensures !IsNotice(c, ms, n)
  {
  }

  lemma OutcomeHasCall(c: Codec, ms: seq<Message>, n: nat)
    requires IsOutcome(c, ms, n)
    ensures n + 1 < |ms| && |ms[n].calls| == 1 && ValueAt(c, ms, n) == FieldsOf(c.parse(Body(ms[n + 1]))) && !IsRead(c, ms, n + 1)
  {
  }

  lemma {:induction false} AuthorTells(c: Codec, ms: seq<Message>, i: nat, s: Progress)
    requires i <= |ms| && (i < |ms| ==> IsRead(c, ms, i)) && Tells(c, ms, i, s.last)
    ensures Tells(c, ms, |ms|, AuthorFrom(c, ms, i, s).last)
    decreases |ms| - i
  {
    hide Tells, IsFeedback, IsRecorded, Merged, Body, DropReads, Record;
    if i < |ms| {
      if IsFeedback(c, ms[i]) {
        NoticeTells(c, ms, i, s.last);
        NoticeIsNoOutcome(c, ms, i);
        AuthorTells(c, ms, i + 1, s.(last := Merged(s.last, c.parse(ms[i].content))));
      } else if IsRecorded(c, ms, i) {
        OutcomeHasCall(c, ms, i);
        OutcomeTells(c, ms, i, s);
        var s1 := Record(s, ms[i].calls[0].name, ValueAt(c, ms, i));
        SilenceTells(c, ms, i + 1, s1.last);
        ResultIsRead(c, ms, i);
        AuthorTells(c, ms, i + 2, s1);
      } else {
        SilenceTells(c, ms, i, s.last);
        AuthorTells(c, ms, i + 1, s.(out := s.out + [ms[i]]));
      }
    }
  }

  lemma ResultIsRead(c: Codec, ms: seq<Message>, i: nat)
    requires i < |ms| && IsRecorded(c, ms, i)
    ensures i + 1 < |ms| && !IsRecorded(c, ms, i + 1)
  {
  }

  lemma NothingTold(c: Codec, ms: seq<Message>)
    ensures Tells(c, ms, 0, map[])
  {
  }

  ghost predicate EndsWith(c: Codec, history: seq<Message>, out: seq<Message>, last: map<string, string>) {
    history == if last == map[] then out else out + [Message(Other, FEEDBACK, [], "", c.encode(last), [])]
  }

  /** MAIN RESULT: the feedback at the end of a projected history says of each field what was said last and
      not forgotten since; without such a field there is none. */
  lemma FeedbackIsLast(c: Codec, ms: seq<Message>)
    ensures exists out, last :: EndsWith(c, Author(c, ms), out, last) && Tells(c, ms, |ms|, last)
  {
    hide Tells, AuthorFrom;
    var s := AuthorFrom(c, ms, 0, Progress([], map[]));
    NothingTold(c, ms);
    AuthorTells(c, ms, 0, Progress([], map[]));
    assert EndsWith(c, Author(c, ms), s.out, s.last);
  }
}
