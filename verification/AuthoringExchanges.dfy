/** The authoring projection on histories that the engine builds: it keeps the protocol, and leaves out
    exactly the feedback, the recorded exchanges and the superseded field reads. */
module AuthoringExchanges {
  import opened Wrappers
  import opened ToolHistory
  import opened HistorySafety
  import opened AuthoringHistory

  // ----- who carries the name of the feedback

  /** The name of the feedback is written on user messages only: results carry the name of their tool
      elsewhere, and calls come without a name. */
  ghost predicate FeedbackIsNotice(ms: seq<Message>) {
    forall m | m in ms && m.name == FEEDBACK :: m.role == Other
  }

  lemma BeforeResult(ms: seq<Message>, i: nat)
    requires Valid(ms) && 0 < i < |ms| && ms[i].role == Tool
    ensures ms[i - 1].role != Other
  {
    hide Valid, CallIds;
    ValidPrefix(ms, i - 1);
    ValidPrefix(ms, i);
    ValidPrefix(ms, i + 1);
  }

  /** So no exchange is torn. */
  lemma NoticesAreWhole(c: Codec, ms: seq<Message>)
    requires Valid(ms) && FeedbackIsNotice(ms)
    ensures Whole(c, ms)
  {
    hide Valid, IsRecorded;
    forall i: nat | 0 < i < |ms| ensures Untorn(c, ms, i) {
      if ms[i].role == Tool {
        BeforeResult(ms, i);
        assert ms[i] in ms && ms[i - 1] in ms;
      }
    }
  }

  // ----- what is left out

  /** A mutation between the positions supersedes the candidate fields read before it. */
  ghost predicate Superseded(c: Codec, ms: seq<Message>, from: nat, end: nat)
    requires end <= |ms|
  {
    exists r: nat :: from <= r < end && IsRecorded(c, ms, r) && ms[r].calls[0].name != OBSERVE
  }

  /** The message is feedback, or one of the two messages of a recorded exchange, or of a read of candidate
      fields that a mutation before `end` supersedes. */
  ghost predicate Removed(c: Codec, ms: seq<Message>, end: nat, k: nat)
    requires k < end <= |ms|
  {
    || IsFeedback(c, ms[k])
    || IsRecorded(c, ms, k) || (k > 0 && IsRecorded(c, ms, k - 1))
    || (ReadsFields(ms, k) && Superseded(c, ms, k + 2, end)) || (k > 0 && ReadsFields(ms, k - 1) && Superseded(c, ms, k + 1, end))
  }

  predicate Within(kept: seq<nat>, low: nat, high: nat) {
    forall p | 0 <= p < |kept| :: low <= kept[p] < high
  }

  /** The positions from `k` up to `end` that are not removed. */
  ghost function Kept(c: Codec, ms: seq<Message>, end: nat, k: nat): (kept: seq<nat>)
    requires k <= end <= |ms|
    ensures Within(kept, k, end)
    decreases |ms| - k
  {
    if k == end then [] else if Removed(c, ms, end, k) then Kept(c, ms, end, k + 1) else [k] + Kept(c, ms, end, k + 1)
  }

  function Pick(ms: seq<Message>, kept: seq<nat>): (out: seq<Message>)
    requires Within(kept, 0, |ms|)
    ensures |out| == |kept| && forall p | 0 <= p < |kept| :: out[p] == ms[kept[p]]
  {
    seq(|kept|, p requires 0 <= p < |kept| => ms[kept[p]])
  }

  lemma {:induction false} KeptAreExactly(c: Codec, ms: seq<Message>, end: nat, i: nat)
    requires i <= end <= |ms|
    ensures Increasing(Kept(c, ms, end, i), i, end)
    ensures forall k: nat | i <= k < end :: (k in Kept(c, ms, end, i)) == !Removed(c, ms, end, k)
    decreases end - i
  {
    hide Removed;
    if i < end {
      KeptAreExactly(c, ms, end, i + 1);
    }
  }

  /** What is kept of the messages read so far. */
  ghost predicate Holds(c: Codec, ms: seq<Message>, i: nat, out: seq<Message>)
    requires i <= |ms|
  {
    out == Pick(ms, Kept(c, ms, i, 0))
  }

  lemma {:induction false} SameKept(c: Codec, ms: seq<Message>, end: nat, end': nat, i: nat)
    requires i <= end <= end' <= |ms|
    requires forall k: nat | i <= k < end :: Removed(c, ms, end', k) == Removed(c, ms, end, k)
    ensures Kept(c, ms, end', i) == Kept(c, ms, end, i) + Kept(c, ms, end', end)
    decreases end - i
  {
    hide Removed;
    if i < end {
      SameKept(c, ms, end, end', i + 1);
    }
  }

  /** No mutation in between: nothing more is superseded. */
  lemma SameSuperseded(c: Codec, ms: seq<Message>, end: nat, end': nat, k: nat)
    requires k < end <= end' <= |ms|
    requires forall r: nat | end <= r < end' && IsRecorded(c, ms, r) :: ms[r].calls[0].name == OBSERVE
    ensures Removed(c, ms, end', k) == Removed(c, ms, end, k)
  {
    hide IsRecorded, IsFeedback, ReadsFields;
  }

  lemma ReadHolds(c: Codec, ms: seq<Message>, i: nat, out: seq<Message>)
    requires i < |ms| && Holds(c, ms, i, out) && !IsRecorded(c, ms, i) && (i > 0 ==> !IsRecorded(c, ms, i - 1))
    ensures Holds(c, ms, i + 1, if IsFeedback(c, ms[i]) then out else out + [ms[i]])
  {
    hide IsRecorded, IsFeedback, ReadsFields;
    forall k: nat | k < i ensures Removed(c, ms, i + 1, k) == Removed(c, ms, i, k) {
      SameSuperseded(c, ms, i, i + 1, k);
    }
    SameKept(c, ms, i, i + 1, 0);
    assert Removed(c, ms, i + 1, i) == IsFeedback(c, ms[i]);
    assert Kept(c, ms, i + 1, i + 1) == [];
    assert Kept(c, ms, i + 1, i) == if IsFeedback(c, ms[i]) then [] else [i];
  }

  lemma NextIsResult(c: Codec, ms: seq<Message>, i: nat)
    requires i < |ms| && IsRecorded(c, ms, i)
    ensures i + 1 < |ms| && ms[i].role == Assistant && ms[i + 1].role == Tool && !IsRecorded(c, ms, i + 1) && !IsFeedback(c, ms[i])
  {
  }

  lemma RecordedGoes(c: Codec, ms: seq<Message>, i: nat)
    requires i < |ms| && IsRecorded(c, ms, i)
    ensures i + 2 <= |ms| && Kept(c, ms, i + 2, i) == []
  {
    hide IsRecorded, ReadsFields, Superseded;
    NextIsResult(c, ms, i);
    assert Removed(c, ms, i + 2, i) && Removed(c, ms, i + 2, i + 1);
    assert Kept(c, ms, i + 2, i + 2) == [];
    assert Kept(c, ms, i + 2, i + 1) == [];
  }

  lemma ObservationHolds(c: Codec, ms: seq<Message>, i: nat, out: seq<Message>)
    requires i < |ms| && Holds(c, ms, i, out) && IsRecorded(c, ms, i) && ms[i].calls[0].name == OBSERVE
    ensures i + 2 <= |ms| && Holds(c, ms, i + 2, out)
  {
    hide IsRecorded, ReadsFields, Removed;
    NextIsResult(c, ms, i);
    forall k: nat | k < i ensures Removed(c, ms, i + 2, k) == Removed(c, ms, i, k) {
      SameSuperseded(c, ms, i, i + 2, k);
    }
    SameKept(c, ms, i, i + 2, 0);
    RecordedGoes(c, ms, i);
    assert Kept(c, ms, i, 0) + [] == Kept(c, ms, i, 0);
  }

  // ----- a mutation takes out the reads before it

  /** In a valid history a single call is answered by the next message. */
  lemma CallThenResult(ms: seq<Message>, i: nat)
    requires Valid(ms) && i + 1 < |ms| && ms[i].role == Assistant && |ms[i].calls| == 1
    ensures IsPair(ms, i)
  {
    hide Valid, CallIds;
    SingleCall(ms[i]);
    ValidPrefix(ms, i);
    ValidPrefix(ms, i + 1);
    ValidPrefix(ms, i + 2);
  }

  /** Both messages of a read are feedback or neither is. */
  lemma ReadIsWhole(c: Codec, ms: seq<Message>, end: nat, k: nat)
    requires Valid(ms) && Whole(c, ms) && k + 1 < end <= |ms| && ReadsFields(ms, k)
    ensures Removed(c, ms, end, k) == Removed(c, ms, end, k + 1) && !ReadsFields(ms, k + 1)
  {
    hide Valid, IsMutation, Body, Superseded;
    assert Untorn(c, ms, k + 1);
    assert !IsRecorded(c, ms, k + 1) && !ReadsFields(ms, k + 1);
    if k > 0 {
      assert !IsRecorded(c, ms, k - 1) && !ReadsFields(ms, k - 1);
    }
  }

  /** The reads before a mutation at `i` are superseded by it. */
  lemma RemovedByMutation(c: Codec, ms: seq<Message>, i: nat, k: nat)
    requires k < i < |ms| && IsRecorded(c, ms, i) && ms[i].calls[0].name != OBSERVE && i + 2 <= |ms|
    ensures Removed(c, ms, i + 2, k) <==> Removed(c, ms, i, k) || ReadsFields(ms, k) || (k > 0 && ReadsFields(ms, k - 1))
  {
    hide IsRecorded, IsFeedback;
    NextIsResult(c, ms, i);
    if ReadsFields(ms, k) {
      assert k + 2 <= i;
      assert Superseded(c, ms, k + 2, i + 2);
    }
    if k > 0 && ReadsFields(ms, k - 1) {
      assert Superseded(c, ms, k + 1, i + 2);
    }
  }

  lemma ReadsFieldsCons(m: Message, ms: seq<Message>, i: nat)
    requires i < |ms|
    ensures ReadsFields([m] + ms, i + 1) == ReadsFields(ms, i)
    ensures ReadsFields(ms, i) ==> i + 2 <= |ms|
  {
  }

  lemma DropReadsAt(ms: seq<Message>, i: nat)
    requires i < |ms|
    ensures ReadsFields(ms, i) ==> i + 2 <= |ms| && DropReadsFrom(ms, i) == DropReadsFrom(ms, i + 2)
    ensures !ReadsFields(ms, i) ==> DropReadsFrom(ms, i) == [ms[i]] + DropReadsFrom(ms, i + 1)
  {
  }

  lemma {:induction false} DropReadsCons(m: Message, ms: seq<Message>, i: nat)
    requires i <= |ms|
    ensures DropReadsFrom([m] + ms, i + 1) == DropReadsFrom(ms, i)
    decreases |ms| - i
  {
    hide DropReadsFrom, ReadsFields;
    if i < |ms| {
      ReadsFieldsCons(m, ms, i);
      DropReadsAt(ms, i);
      DropReadsAt([m] + ms, i + 1);
      if ReadsFields(ms, i) {
        DropReadsCons(m, ms, i + 2);
      } else {
        DropReadsCons(m, ms, i + 1);
      }
    } else {
      NothingToDrop(ms);
      NothingToDrop([m] + ms);
    }
  }

  lemma NothingToDrop(ms: seq<Message>)
    ensures DropReadsFrom(ms, |ms|) == []
  {
  }

  lemma DropReadsFront(ms: seq<Message>)
    requires ms != []
    ensures DropReads(ms) == if ReadsFields(ms, 0) then DropReads(ms[2..]) else [ms[0]] + DropReads(ms[1..])
  {
    hide DropReadsFrom;
    assert ms == [ms[0]] + ms[1..];
    DropReadsAt(ms, 0);
    if ReadsFields(ms, 0) {
      assert ms[1..] == [ms[1]] + ms[2..];
      DropReadsCons(ms[0], ms[1..], 1);
      DropReadsCons(ms[1], ms[2..], 0);
    } else {
      DropReadsCons(ms[0], ms[1..], 0);
    }
  }

  /** Taking the reads out of what was kept leaves what is kept after the mutation. */
  ghost predicate TakesOut(c: Codec, ms: seq<Message>, i: nat, k: nat)
    requires k <= i && i + 2 <= |ms|
  {
    DropReads(Pick(ms, Kept(c, ms, i, k))) == Pick(ms, Kept(c, ms, i + 2, k))
  }

  lemma {:induction false} ReadsGo(c: Codec, ms: seq<Message>, i: nat, k: nat)
    requires Valid(ms) && Whole(c, ms) && k <= i < |ms| && IsRecorded(c, ms, i) && ms[i].calls[0].name != OBSERVE && i + 2 <= |ms|
    requires 0 < k < i && ReadsFields(ms, k - 1) ==> Removed(c, ms, i, k)
    ensures TakesOut(c, ms, i, k)
    decreases i - k
  {
    hide Valid, Whole, IsRecorded, ReadsFields, Removed, TakesOut;
    if k == i {
      NothingToTake(c, ms, i);
    } else {
      if ReadsFields(ms, k) {
        ReadEndsBefore(c, ms, i, k);
        ReadIsWhole(c, ms, i, k);
      }
      if !Removed(c, ms, i, k) && ReadsFields(ms, k) {
        ReadsGo(c, ms, i, k + 2);
        TakeRead(c, ms, i, k);
      } else {
        ReadsGo(c, ms, i, k + 1);
        TakeNothing(c, ms, i, k);
      }
    }
  }

  lemma NothingToTake(c: Codec, ms: seq<Message>, i: nat)
    requires i < |ms| && IsRecorded(c, ms, i) && i + 2 <= |ms|
    ensures TakesOut(c, ms, i, i)
  {
    hide IsRecorded, Removed;
    RecordedGoes(c, ms, i);
  }

  lemma TakeRead(c: Codec, ms: seq<Message>, i: nat, k: nat)
    requires k + 1 < i < |ms| && IsRecorded(c, ms, i) && ms[i].calls[0].name != OBSERVE && i + 2 <= |ms|
    requires ReadsFields(ms, k) && !Removed(c, ms, i, k) && !Removed(c, ms, i, k + 1) && TakesOut(c, ms, i, k + 2)
    ensures TakesOut(c, ms, i, k)
  {
    hide IsRecorded, ReadsFields, DropReads, Removed, Kept, Pick;
    RemovedByMutation(c, ms, i, k);
    RemovedByMutation(c, ms, i, k + 1);
    KeptTwo(c, ms, i, k);
    RemovedTwo(c, ms, i + 2, k);
    ReadGoes(ms, k, Kept(c, ms, i, k + 2));
  }

  lemma TakeNothing(c: Codec, ms: seq<Message>, i: nat, k: nat)
    requires Valid(ms) && k < i < |ms| && IsRecorded(c, ms, i) && ms[i].calls[0].name != OBSERVE && i + 2 <= |ms|
    requires Removed(c, ms, i, k) || (!ReadsFields(ms, k) && !(k > 0 && ReadsFields(ms, k - 1)))
    requires TakesOut(c, ms, i, k + 1)
    ensures TakesOut(c, ms, i, k)
  {
    hide Valid, IsRecorded, ReadsFields, DropReads, Removed, Kept, Pick;
    RemovedByMutation(c, ms, i, k);
    KeptFront(c, ms, i, k);
    KeptFront(c, ms, i + 2, k);
    if !Removed(c, ms, i, k) {
      OtherStays(ms, k, Kept(c, ms, i, k + 1));
      PickFront(ms, k, Kept(c, ms, i + 2, k + 1));
    }
  }

  lemma PickFront(ms: seq<Message>, k: nat, rest: seq<nat>)
    requires k < |ms| && Within(rest, 0, |ms|)
    ensures Within([k] + rest, 0, |ms|) && Pick(ms, [k] + rest) == [ms[k]] + Pick(ms, rest)
  {
  }

  lemma ReadGoes(ms: seq<Message>, k: nat, rest: seq<nat>)
    requires k < |ms| && ReadsFields(ms, k) && Within(rest, 0, |ms|)
    ensures Within([k, k + 1] + rest, 0, |ms|) && DropReads(Pick(ms, [k, k + 1] + rest)) == DropReads(Pick(ms, rest))
  {
    hide DropReads;
    var kept := [k, k + 1] + rest;
    var out := Pick(ms, kept);
    assert kept[2..] == rest;
    assert out[2..] == Pick(ms, rest);
    DropReadsFront(out);
  }

  lemma OtherStays(ms: seq<Message>, k: nat, rest: seq<nat>)
    requires Valid(ms) && k < |ms| && !ReadsFields(ms, k) && Within(rest, k + 1, |ms|)
    ensures Within([k] + rest, 0, |ms|) && DropReads(Pick(ms, [k] + rest)) == [ms[k]] + DropReads(Pick(ms, rest))
  {
    hide DropReads, Valid;
    var kept := [k] + rest;
    var out := Pick(ms, kept);
    assert kept[1..] == rest;
    assert out[1..] == Pick(ms, rest);
    if ReadsFields(out, 0) {
      CallThenResult(ms, k);
    }
    DropReadsFront(out);
  }

  lemma KeptFront(c: Codec, ms: seq<Message>, end: nat, k: nat)
    requires k < end <= |ms|
    ensures Kept(c, ms, end, k) == if Removed(c, ms, end, k) then Kept(c, ms, end, k + 1) else [k] + Kept(c, ms, end, k + 1)
  {
    hide Removed;
  }

  lemma KeptTwo(c: Codec, ms: seq<Message>, end: nat, k: nat)
    requires k + 1 < end <= |ms| && !Removed(c, ms, end, k) && !Removed(c, ms, end, k + 1)
    ensures Kept(c, ms, end, k) == [k, k + 1] + Kept(c, ms, end, k + 2)
  {
    hide Removed, Kept;
    KeptFront(c, ms, end, k);
    KeptFront(c, ms, end, k + 1);
  }

  lemma RemovedTwo(c: Codec, ms: seq<Message>, end: nat, k: nat)
    requires k + 1 < end <= |ms| && Removed(c, ms, end, k) && Removed(c, ms, end, k + 1)
    ensures Kept(c, ms, end, k) == Kept(c, ms, end, k + 2)
  {
    hide Removed, Kept;
    KeptFront(c, ms, end, k);
    KeptFront(c, ms, end, k + 1);
  }

  lemma ReadEndsBefore(c: Codec, ms: seq<Message>, i: nat, k: nat)
    requires k < i < |ms| && ReadsFields(ms, k) && IsRecorded(c, ms, i)
    ensures k + 1 < i
  {
    hide IsRecorded;
    NextIsResult(c, ms, i);
  }

  lemma MutationHolds(c: Codec, ms: seq<Message>, i: nat, out: seq<Message>)
    requires Valid(ms) && Whole(c, ms) && i < |ms| && Holds(c, ms, i, out) && IsRecorded(c, ms, i) && ms[i].calls[0].name != OBSERVE
    ensures i + 2 <= |ms| && Holds(c, ms, i + 2, DropReads(out))
  {
    hide Valid, Whole, IsRecorded, DropReads, Kept;
    NextIsResult(c, ms, i);
    ReadsGo(c, ms, i, 0);
  }

  // ----- the whole projection

  lemma {:induction false} AuthorHolds(c: Codec, ms: seq<Message>, i: nat, s: Progress)
    requires Valid(ms) && Whole(c, ms) && i <= |ms| && Holds(c, ms, i, s.out) && (i > 0 ==> !IsRecorded(c, ms, i - 1))
    ensures Holds(c, ms, |ms|, AuthorFrom(c, ms, i, s).out)
    decreases |ms| - i
  {
    hide Valid, Whole, Holds, IsFeedback, IsRecorded, Merged, Body, ErrorOf, DropReads;
    if i < |ms| {
      if IsRecorded(c, ms, i) {
        NextIsResult(c, ms, i);
        RecordedIsPair(c, ms, i);
        var tool, value := ms[i].calls[0].name, FieldsOf(c.parse(Body(ms[i + 1])));
        if tool == OBSERVE {
          ObservationHolds(c, ms, i, s.out);
        } else {
          MutationHolds(c, ms, i, s.out);
        }
        AuthorHolds(c, ms, i + 2, Record(s, tool, value));
      } else {
        ReadHolds(c, ms, i, s.out);
        if IsFeedback(c, ms[i]) {
          AuthorHolds(c, ms, i + 1, s.(last := Merged(s.last, c.parse(ms[i].content))));
        } else {
          AuthorHolds(c, ms, i + 1, s.(out := s.out + [ms[i]]));
        }
      }
    }
  }

  /** MAIN RESULT: what stays of a valid history are, in their order, exactly the messages that are neither
      feedback nor part of a recorded exchange or of a superseded read; at most one feedback message is
      added, at the end. */
  lemma AuthoringDropsExchanges(c: Codec, ms: seq<Message>)
    requires Valid(ms) && Whole(c, ms)
    ensures var kept := Kept(c, ms, |ms|, 0); Increasing(kept, 0, |ms|) && forall k: nat | k < |ms| :: (k in kept) == !Removed(c, ms, |ms|, k)
    ensures exists s: Progress :: Author(c, ms) == Finish(c, s) && Holds(c, ms, |ms|, s.out)
  {
    hide Valid, Whole, AuthorFrom, Removed, Finish, Kept;
    KeptAreExactly(c, ms, |ms|, 0);
    var s := Progress([], map[]);
    NothingHeld(c, ms);
    AuthorHolds(c, ms, 0, s);
    assert Author(c, ms) == Finish(c, AuthorFrom(c, ms, 0, s));
  }

  lemma NothingHeld(c: Codec, ms: seq<Message>)
    ensures Holds(c, ms, 0, [])
  {
  }

  /** An exchange goes or stays as a whole. */
  lemma ExchangesGoWhole(c: Codec, ms: seq<Message>, k: nat)
    requires Valid(ms) && Whole(c, ms) && k + 1 < |ms| && IsPair(ms, k) && (IsRecorded(c, ms, k) || ReadsFields(ms, k))
    ensures k in Kept(c, ms, |ms|, 0) <==> k + 1 in Kept(c, ms, |ms|, 0)
  {
    hide Valid, Whole, IsRecorded, ReadsFields, Kept;
    KeptAreExactly(c, ms, |ms|, 0);
    if ReadsFields(ms, k) {
      ReadIsWhole(c, ms, |ms|, k);
    }
  }

  // ----- the history that a request carries

  /** The projections that shorten a history, in the order in which a request applies them. */
  function Shortened(c: Codec, ms: seq<Message>, draft: bool, authoring: bool): seq<Message> {
    var first := if !draft then ms else if authoring then Author(c, ms) else Project(DraftRule(c), ms);
    Project(ObservationRule(c, draft), first)
  }

  /** MAIN RESULT: a history that the engine built keeps the tool protocol in every mode. */
  lemma RequestsKeepProtocol(c: Codec, ms: seq<Message>, draft: bool, authoring: bool)
    requires Valid(ms) && FeedbackIsNotice(ms)
    ensures Valid(Shortened(c, ms, draft, authoring))
  {
    hide Valid, Whole, FeedbackIsNotice, Author, Project;
    NoticesAreWhole(c, ms);
    AuthoringKeepsProtocol(c, ms);
    ProjectionKeepsProtocol(DraftRule(c), ms);
    ProjectionKeepsProtocol(ObservationRule(c, draft), if !draft then ms else if authoring then Author(c, ms) else Project(DraftRule(c), ms));
  }

  lemma {:induction false} AuthorIncludes(c: Codec, ms: seq<Message>, i: nat, s: Progress)
    requires i <= |ms| && forall m | m in s.out :: m in ms
    ensures forall m | m in AuthorFrom(c, ms, i, s).out :: m in ms
    decreases |ms| - i
  {
    hide IsFeedback, IsRecorded, Merged, Body, ErrorOf, DropReadsFrom;
    if i < |ms| {
      if IsFeedback(c, ms[i]) {
        AuthorIncludes(c, ms, i + 1, s.(last := Merged(s.last, c.parse(ms[i].content))));
      } else if IsRecorded(c, ms, i) {
        RecordedIsPair(c, ms, i);
        assert s.out[0..] == s.out;
        forall m | m in DropReads(s.out) ensures m in ms {
          DropReadsIncludes(s.out, 0, m);
        }
        AuthorIncludes(c, ms, i + 2, Record(s, ms[i].calls[0].name, FieldsOf(c.parse(Body(ms[i + 1])))));
      } else {
        AuthorIncludes(c, ms, i + 1, s.(out := s.out + [ms[i]]));
      }
    }
  }

  /** A second authoring pass over a history that the engine built is possible and changes nothing. */
  lemma EngineHistoryIsFixed(c: Codec, ms: seq<Message>)
    requires Valid(ms) && FeedbackIsNotice(ms) && RoundTrips(c)
    ensures Valid(Author(c, ms)) && FeedbackIsNotice(Author(c, ms)) && Author(c, Author(c, ms)) == Author(c, ms)
  {
    hide Valid, Whole, RoundTrips, AuthorFrom;
    NoticesAreWhole(c, ms);
    AuthoringKeepsProtocol(c, ms);
    AuthoringIsIdempotent(c, ms);
    AuthorIncludes(c, ms, 0, Progress([], map[]));
  }
}
