/** Which replies of the model lead to which answer of a bounded review, and that no batch is asked once
    more than its replies require (internal/investigator/bounded_review.go). */
module BoundedAnswers {
  import opened Wrappers
  import opened BoundedReview

  // ----- what the replies to one batch say

  predicate Accepts(task: Task, r: Reply) {
    r.Report? && IsReportOf(task, r.units)
  }

  /** Text that breaks the format, or that is no report of exactly the units. */
  predicate Rejects(task: Task, r: Reply) {
    !r.Truncated? && !Accepts(task, r)
  }

  function Rejections(task: Task, rs: seq<Reply>): nat {
    if rs == [] then 0 else Rejections(task, rs[..|rs| - 1]) + if Rejects(task, rs[|rs| - 1]) then 1 else 0
  }

  /** The output that the window leaves for the next reply; the message about a format error costs some. */
  function Room(env: Env, task: Task, rs: seq<Reply>): nat {
    env.available(task, Rejections(task, rs))
  }

  /** The output that the next reply is given at most: each reply that was cut off doubles it. */
  function Asked(env: Env, task: Task, rs: seq<Reply>): nat {
    if rs == [] then env.initial(task)
    else
      var front := rs[..|rs| - 1];
      if rs[|rs| - 1].Truncated? then Min(Room(env, task, front), 2 * Min(Asked(env, task, front), Room(env, task, front)))
      else Asked(env, task, front)
  }

  /** Nothing is left to grow: the next reply has all the room, or none. */
  predicate IsFull(env: Env, task: Task, rs: seq<Reply>) {
    Asked(env, task, rs) == 0 || Asked(env, task, rs) >= Room(env, task, rs)
  }

  predicate WasCutOff(rs: seq<Reply>) {
    exists r | r in rs :: r.Truncated?
  }

  /** After the replies `rs`, a reply was cut off and is not repeated with more output: there is none, or
      the batch has several units and has grown before or must not grow. */
  predicate CutsOff(env: Env, task: Task, rs: seq<Reply>, r: Reply) {
    r.Truncated? && (IsFull(env, task, rs) || (|task| > 1 && (!env.grows || WasCutOff(rs))))
  }

  predicate RejectsAgain(task: Task, rs: seq<Reply>, r: Reply) {
    Rejects(task, r) && Rejections(task, rs) >= 1
  }

  predicate Decides(env: Env, task: Task, rs: seq<Reply>, r: Reply) {
    Accepts(task, r) || RejectsAgain(task, rs, r) || CutsOff(env, task, rs, r)
  }

  // ----- the replies in the reserved slots of a store

  function ReplyAt(env: Env, s: Store, task: Task, n: nat): Reply {
    if CallKey(task, n) in s.slots then env.replies(s.slots[CallKey(task, n)]) else Malformed
  }

  function Heard(env: Env, s: Store, task: Task, n: nat): (rs: seq<Reply>)
    ensures |rs| == n && forall i | 0 <= i < n :: rs[i] == ReplyAt(env, s, task, i)
  {
    seq(n, i requires 0 <= i < n => ReplyAt(env, s, task, i))
  }

  /** The first `n` replies to the batch have come, and none of them decides. */
  ghost predicate IsOpen(env: Env, s: Store, task: Task, n: nat) {
    forall i: nat | i < n :: CallKey(task, i) in s.slots && !Decides(env, task, Heard(env, s, task, i), ReplyAt(env, s, task, i))
  }

  ghost predicate HasReply(env: Env, s: Store, task: Task, n: nat) {
    CallKey(task, n) in s.slots && IsOpen(env, s, task, n)
  }

  ghost predicate IsAccepted(env: Env, s: Store, task: Task) {
    exists n: nat :: HasReply(env, s, task, n) && Accepts(task, ReplyAt(env, s, task, n))
  }

  ghost predicate IsRefused(env: Env, s: Store, task: Task) {
    exists n: nat :: HasReply(env, s, task, n) && RejectsAgain(task, Heard(env, s, task, n), ReplyAt(env, s, task, n))
  }

  ghost predicate IsCutOff(env: Env, s: Store, task: Task) {
    exists n: nat :: HasReply(env, s, task, n) && CutsOff(env, task, Heard(env, s, task, n), ReplyAt(env, s, task, n))
  }

  /** The next reply is still to come. */
  ghost predicate IsWaiting(env: Env, s: Store, task: Task) {
    exists n: nat :: CallKey(task, n) !in s.slots && IsOpen(env, s, task, n)
  }

  /** Halving ends in batches that were all reported. */
  ghost predicate IsFinished(env: Env, s: Store, task: Task)
    decreases |task|
  {
    IsAccepted(env, s, task)
    || (|task| >= 2 && IsCutOff(env, s, task) && IsFinished(env, s, task[..|task| / 2]) && IsFinished(env, s, task[|task| / 2..]))
  }

  /** A single unit that cannot be answered at the greatest length. */
  ghost predicate SomeUnitIsTooLong(env: Env, s: Store) {
    exists task: Task :: |task| <= 1 && IsCutOff(env, s, task)
  }

  ghost predicate SomeBatchIsRefused(env: Env, s: Store) {
    exists task: Task :: IsRefused(env, s, task)
  }

  // ----- a decision is the last word about a batch

  lemma OneDecision(env: Env, s: Store, task: Task, m: nat, n: nat)
    requires HasReply(env, s, task, m) && Decides(env, task, Heard(env, s, task, m), ReplyAt(env, s, task, m))
    requires HasReply(env, s, task, n) && Decides(env, task, Heard(env, s, task, n), ReplyAt(env, s, task, n))
    ensures m == n
  {
    hide Decides, Heard, ReplyAt;
  }

  /** So a batch is accepted, refused, cut off or waiting, but not two of these. */
  lemma OneFate(env: Env, s: Store, task: Task)
    requires forall key | key in s.slots && key.task == task :: IsOpen(env, s, task, key.attempt)
    ensures IsAccepted(env, s, task) ==> !IsRefused(env, s, task) && !IsCutOff(env, s, task) && !IsWaiting(env, s, task)
    ensures IsRefused(env, s, task) ==> !IsCutOff(env, s, task) && !IsWaiting(env, s, task)
    ensures IsCutOff(env, s, task) ==> !IsWaiting(env, s, task)
  {
    hide IsOpen, Heard, ReplyAt, Accepts, CutsOff, Rejections;
    forall m: nat, n: nat | HasReply(env, s, task, m) && Decides(env, task, Heard(env, s, task, m), ReplyAt(env, s, task, m))
      && HasReply(env, s, task, n) && Decides(env, task, Heard(env, s, task, n), ReplyAt(env, s, task, n)) ensures m == n
    {
      OneDecision(env, s, task, m, n);
    }
    forall m: nat, n: nat | HasReply(env, s, task, m) && Decides(env, task, Heard(env, s, task, m), ReplyAt(env, s, task, m))
      ensures CallKey(task, n) in s.slots || !IsOpen(env, s, task, n)
    {
      NotWaiting(env, s, task, m, n);
    }
    forall n: nat ensures Accepts(task, ReplyAt(env, s, task, n)) ==> !Rejects(task, ReplyAt(env, s, task, n)) && !CutsOff(env, task, Heard(env, s, task, n), ReplyAt(env, s, task, n)) {
      OneKind(env, task, Heard(env, s, task, n), ReplyAt(env, s, task, n));
    }
    forall n: nat ensures Rejects(task, ReplyAt(env, s, task, n)) ==> !CutsOff(env, task, Heard(env, s, task, n), ReplyAt(env, s, task, n)) {
      OneKind(env, task, Heard(env, s, task, n), ReplyAt(env, s, task, n));
    }
  }

  lemma OneKind(env: Env, task: Task, rs: seq<Reply>, r: Reply)
    ensures Accepts(task, r) ==> !Rejects(task, r) && !CutsOff(env, task, rs, r)
    ensures Rejects(task, r) ==> !CutsOff(env, task, rs, r)
  {
  }

  lemma NotWaiting(env: Env, s: Store, task: Task, m: nat, n: nat)
    requires HasReply(env, s, task, m) && Decides(env, task, Heard(env, s, task, m), ReplyAt(env, s, task, m))
    ensures CallKey(task, n) in s.slots || !IsOpen(env, s, task, n)
  {
    hide Decides, Heard, ReplyAt;
  }

  // ----- stores only grow

  lemma SameHeard(env: Env, s: Store, t: Store, task: Task, n: nat)
    requires Extends(s, t) && IsOpen(env, s, task, n)
    ensures Heard(env, t, task, n) == Heard(env, s, task, n) && IsOpen(env, t, task, n)
  {
    hide Decides;
    forall i: nat | i < n ensures ReplyAt(env, t, task, i) == ReplyAt(env, s, task, i) {
      assert CallKey(task, i) in s.slots;
    }
    forall i: nat | i < n ensures Heard(env, t, task, i) == Heard(env, s, task, i) {
    }
  }

  lemma ReplyStays(env: Env, s: Store, t: Store, task: Task, n: nat)
    requires Extends(s, t) && HasReply(env, s, task, n)
    ensures HasReply(env, t, task, n) && Heard(env, t, task, n) == Heard(env, s, task, n) && ReplyAt(env, t, task, n) == ReplyAt(env, s, task, n)
  {
    hide IsOpen;
    SameHeard(env, s, t, task, n);
  }

  lemma FateStays(env: Env, s: Store, t: Store, task: Task)
    requires Extends(s, t)
    ensures IsAccepted(env, s, task) ==> IsAccepted(env, t, task)
    ensures IsCutOff(env, s, task) ==> IsCutOff(env, t, task)
  {
    hide HasReply, Heard, ReplyAt, Accepts, CutsOff, Extends;
    if IsAccepted(env, s, task) {
      var n: nat :| HasReply(env, s, task, n) && Accepts(task, ReplyAt(env, s, task, n));
      ReplyStays(env, s, t, task, n);
    }
    if IsCutOff(env, s, task) {
      var n: nat :| HasReply(env, s, task, n) && CutsOff(env, task, Heard(env, s, task, n), ReplyAt(env, s, task, n));
      ReplyStays(env, s, t, task, n);
    }
  }

  lemma {:induction false} FinishedStays(env: Env, s: Store, t: Store, task: Task)
    requires Extends(s, t) && IsFinished(env, s, task)
    ensures IsFinished(env, t, task)
    decreases |task|
  {
    hide IsAccepted, IsCutOff, Extends;
    FateStays(env, s, t, task);
    if !IsAccepted(env, s, task) {
      FinishedStays(env, s, t, task[..|task| / 2]);
      FinishedStays(env, s, t, task[|task| / 2..]);
    }
  }

  // ----- the recorded outcomes

  ghost predicate HasReport(env: Env, s: Store, task: Task, results: seq<string>) {
    exists n: nat :: HasReply(env, s, task, n) && Accepts(task, ReplyAt(env, s, task, n)) && ReplyAt(env, s, task, n).units == results
  }

  /** The outcome that the replies to a batch lead to. */
  ghost predicate LeadsTo(env: Env, s: Store, task: Task, outcome: Outcome) {
    match outcome
    case Complete(results) => HasReport(env, s, task, results)
    case Split => |task| > 1 && IsCutOff(env, s, task)
    case Exhausted => |task| <= 1 && IsCutOff(env, s, task)
  }

  /** Every batch that was asked has the outcome that its replies lead to, except the one at work. */
  ghost predicate IsSettled(env: Env, s: Store, open: Option<Task>) {
    && (forall key | key in s.slots :: IsOpen(env, s, key.task, key.attempt) && (key.task in s.outcomes || open == Some(key.task)))
    && (forall task | task in s.outcomes :: LeadsTo(env, s, task, s.outcomes[task]))
    && (open.Some? ==> open.value !in s.outcomes)
  }

  ghost predicate OnlyExhausted(s: Store, last: Option<Task>) {
    forall task | task in s.outcomes && s.outcomes[task].Exhausted? :: last == Some(task)
  }

  lemma LeadStays(env: Env, s: Store, t: Store, task: Task, outcome: Outcome)
    requires Extends(s, t) && LeadsTo(env, s, task, outcome)
    ensures LeadsTo(env, t, task, outcome)
  {
    hide HasReply, Heard, ReplyAt, Extends, IsCutOff, IsReportOf;
    FateStays(env, s, t, task);
    if outcome.Complete? {
      var n: nat :| HasReply(env, s, task, n) && Accepts(task, ReplyAt(env, s, task, n)) && ReplyAt(env, s, task, n).units == outcome.results;
      ReplyStays(env, s, t, task, n);
    }
  }

  lemma SettledFate(env: Env, s: Store, open: Option<Task>, task: Task)
    requires IsSettled(env, s, open)
    ensures forall key | key in s.slots && key.task == task :: IsOpen(env, s, task, key.attempt)
    ensures task !in s.outcomes && open != Some(task) ==> !IsAccepted(env, s, task) && !IsRefused(env, s, task) && !IsCutOff(env, s, task)
    ensures task in s.outcomes ==> LeadsTo(env, s, task, s.outcomes[task])
  {
    hide IsOpen, Heard, ReplyAt, Accepts, CutsOff, Rejects, LeadsTo, RejectsAgain;
  }

  lemma ReportIsAccepted(env: Env, s: Store, task: Task, results: seq<string>)
    requires HasReport(env, s, task, results)
    ensures IsAccepted(env, s, task) && IsReportOf(task, results)
  {
    hide HasReply, ReplyAt;
  }

  /** Nothing but a recorded exhaustion is a unit that is too long, and nothing recorded was refused. */
  lemma SettledSays(env: Env, s: Store, open: Option<Task>, task: Task)
    requires IsSettled(env, s, open) && open != Some(task)
    ensures !IsRefused(env, s, task)
    ensures |task| <= 1 && IsCutOff(env, s, task) ==> task in s.outcomes && s.outcomes[task].Exhausted?
  {
    hide IsSettled, IsAccepted, IsRefused, IsCutOff, IsWaiting, HasReport, IsOpen;
    SettledFate(env, s, open, task);
    OneFate(env, s, task);
    if task in s.outcomes && s.outcomes[task].Complete? {
      ReportIsAccepted(env, s, task, s.outcomes[task].results);
    }
  }

  // ----- the attempts at one batch

  /** The local variables of the retry loop are what the replies so far say. */
  ghost predicate Follows(env: Env, s: Store, task: Task, l: Local) {
    var rs := Heard(env, s, task, l.attempt);
    && IsOpen(env, s, task, l.attempt) && (forall key | key in s.slots && key.task == task :: key.attempt < l.attempt)
    && l.formatErrors == Rejections(task, rs) && l.tokens == Asked(env, task, rs)
    && (l.grown <==> |task| > 1 && WasCutOff(rs))
  }

  /** What `React` does is what the replies say. */
  lemma ReactDecides(env: Env, task: Task, l: Local, rs: seq<Reply>, r: Reply)
    requires l.formatErrors == Rejections(task, rs) && l.tokens == Asked(env, task, rs) && (l.grown <==> |task| > 1 && WasCutOff(rs))
    ensures React(env, task, l, r).Stop? <==> Decides(env, task, rs, r)
    ensures match React(env, task, l, r)
      case Stop(Decided(Complete(results))) => Accepts(task, r) && r.units == results
      case Stop(Decided(Split)) => |task| > 1 && CutsOff(env, task, rs, r)
      case Stop(Decided(Exhausted)) => |task| <= 1 && CutsOff(env, task, rs, r)
      case Stop(BadFormat) => RejectsAgain(task, rs, r)
      case Stop(NoCalls) => false
      case Again(l1) => l1.attempt == l.attempt + 1 && l1.formatErrors == Rejections(task, rs + [r]) && l1.tokens == Asked(env, task, rs + [r]) && (l1.grown <==> |task| > 1 && WasCutOff(rs + [r]))
  {
    assert (rs + [r])[..|rs|] == rs;
    assert r in rs + [r];
    assert forall x | x in rs + [r] :: x in rs || x == r;
    assert forall x | x in rs :: x in rs + [r];
  }

  /** A reply has come for the next attempt. */
  lemma Hears(env: Env, s: Store, task: Task, l: Local, slot: nat, t: Store)
    requires Follows(env, s, task, l) && Extends(s, t) && t.slots == s.slots[CallKey(task, l.attempt) := slot] && CallKey(task, l.attempt) !in s.slots
    ensures HasReply(env, t, task, l.attempt) && Heard(env, t, task, l.attempt) == Heard(env, s, task, l.attempt) && ReplyAt(env, t, task, l.attempt) == env.replies(slot)
    ensures Heard(env, t, task, l.attempt + 1) == Heard(env, s, task, l.attempt) + [env.replies(slot)]
    ensures !Decides(env, task, Heard(env, s, task, l.attempt), env.replies(slot)) ==> IsOpen(env, t, task, l.attempt + 1)
  {
    hide Decides, Extends, Rejections, Asked, WasCutOff;
    SameHeard(env, s, t, task, l.attempt);
  }

  ghost predicate AttemptsSay(env: Env, t: Store, task: Task, d: Decision) {
    match d
    case Decided(outcome) => LeadsTo(env, t, task, outcome)
    case BadFormat => IsRefused(env, t, task)
    case NoCalls => IsWaiting(env, t, task) && t.calls >= env.cap
  }

  ghost predicate OthersStay(s: Store, t: Store, task: Task) {
    Extends(s, t) && t.outcomes == s.outcomes && forall key | key in t.slots && key.task != task :: key in s.slots
  }

  lemma SaysSo(env: Env, t: Store, task: Task, n: nat, l: Local, rs: seq<Reply>, r: Reply)
    requires HasReply(env, t, task, n) && Heard(env, t, task, n) == rs && ReplyAt(env, t, task, n) == r
    requires l.formatErrors == Rejections(task, rs) && l.tokens == Asked(env, task, rs) && (l.grown <==> |task| > 1 && WasCutOff(rs))
    requires React(env, task, l, r).Stop?
    ensures AttemptsSay(env, t, task, React(env, task, l, r).decision)
  {
    hide React, HasReply, Heard, ReplyAt, Accepts, RejectsAgain, CutsOff, Rejections, Asked, WasCutOff;
    ReactDecides(env, task, l, rs, r);
  }

  lemma {:induction false} AttemptsHear(env: Env, s: Store, task: Task, l: Local, w: nat)
    requires Follows(env, s, task, l) && l.formatErrors < 2
    ensures Attempts(env, s, task, l, w).Ran? ==>
      var t := Attempts(env, s, task, l, w).store;
      OthersStay(s, t, task) && AttemptsSay(env, t, task, Attempts(env, s, task, l, w).value)
      && forall key | key in t.slots && key.task == task :: IsOpen(env, t, task, key.attempt)
    decreases 2 - l.formatErrors, if l.grown then 0 else 1, env.available(task, l.formatErrors) - Used(env, task, l)
  {
    hide React, Reserve, Extends, Decides, LeadsTo, IsRefused, Rejections, Asked, WasCutOff, IsOpen, Heard, ReplyAt;
    var key := CallKey(task, l.attempt);
    ReserveExtends(env, s, key, w);
    match Reserve(env, s, key, w)
    case Ran(t, w1, None) =>
      NoneReserved(env, s, key, w);
      FollowsIsWaiting(env, s, task, l);
    case Ran(t, w1, Some(slot)) =>
      OneReserved(env, s, key, w);
      Hears(env, s, task, l, slot, t);
      var rs, r := Heard(env, s, task, l.attempt), env.replies(slot);
      ReactDecides(env, task, l, rs, r);
      OpenAll(env, s, task, l, t);
      match React(env, task, l, r) {
        case Again(l1) =>
          ReactDecreases(env, task, l, r);
          AttemptsHear(env, t, task, l1, w1);
          if Attempts(env, t, task, l1, w1).Ran? {
            OthersStayOn(s, t, Attempts(env, t, task, l1, w1).store, task);
          }
        case Stop(d) => SaysSo(env, t, task, l.attempt, l, rs, r);
      }
    case _ =>
  }

  lemma ReactDecreases(env: Env, task: Task, l: Local, r: Reply)
    requires React(env, task, l, r).Again? && l.formatErrors < 2
    ensures var l1 := React(env, task, l, r).local;
      && l1.formatErrors < 2
      && (l1.formatErrors == l.formatErrors + 1
          || (l1.formatErrors == l.formatErrors && l1.grown == l.grown
              && env.available(task, l1.formatErrors) - Used(env, task, l1) < env.available(task, l.formatErrors) - Used(env, task, l))
          || (l1.formatErrors == l.formatErrors && !l.grown && l1.grown))
  {
  }

  lemma NoneReserved(env: Env, s: Store, key: CallKey, w: nat)
    requires Reserve(env, s, key, w).Ran? && Reserve(env, s, key, w).value.None?
    ensures Reserve(env, s, key, w).store == s && key !in s.slots && s.calls >= env.cap && Extends(s, s)
  {
  }

  lemma OneReserved(env: Env, s: Store, key: CallKey, w: nat)
    requires Reserve(env, s, key, w).Ran? && Reserve(env, s, key, w).value.Some? && key !in s.slots
    ensures var t := Reserve(env, s, key, w).store; t.slots == s.slots[key := Reserve(env, s, key, w).value.value] && t.outcomes == s.outcomes && OthersStay(s, t, key.task)
  {
  }

  lemma FollowsIsWaiting(env: Env, s: Store, task: Task, l: Local)
    requires Follows(env, s, task, l)
    ensures IsWaiting(env, s, task) && forall key | key in s.slots && key.task == task :: IsOpen(env, s, task, key.attempt)
  {
    hide Decides, Heard, ReplyAt, Rejections, Asked, WasCutOff;
    assert CallKey(task, l.attempt) !in s.slots;
  }

  lemma OpenAll(env: Env, s: Store, task: Task, l: Local, t: Store)
    requires Follows(env, s, task, l) && OthersStay(s, t, task) && HasReply(env, t, task, l.attempt)
    requires forall key | key in t.slots && key.task == task :: key in s.slots || key.attempt == l.attempt
    ensures forall key | key in t.slots && key.task == task :: IsOpen(env, t, task, key.attempt) && key.attempt < l.attempt + 1
  {
    hide Decides, Heard, ReplyAt, Rejections, Asked, WasCutOff, OthersStay;
  }

  lemma OthersStayOn(s: Store, t: Store, u: Store, task: Task)
    requires OthersStay(s, t, task) && OthersStay(t, u, task)
    ensures OthersStay(s, u, task)
  {
    ExtendsTransitive(s, t, u);
  }

  // ----- a whole review

  /** Why a review does not finish. */
  ghost predicate Fails(env: Env, t: Store, value: Result) {
    match value
    case OutOfCapacity => IsSettled(env, t, None) && exists task :: task in t.outcomes && t.outcomes[task].Exhausted?
    case Invalid => OnlyExhausted(t, None) && exists b :: IsSettled(env, t, Some(b)) && IsRefused(env, t, b)
    case OutOfCalls => OnlyExhausted(t, None) && t.calls >= env.cap && exists b :: IsSettled(env, t, Some(b)) && IsWaiting(env, t, b)
    case _ => false
  }

  ghost predicate Answers(env: Env, t: Store, task: Task, value: Result) {
    if value.Done? then IsSettled(env, t, None) && OnlyExhausted(t, None) && IsFinished(env, t, task)
    else Fails(env, t, value) && !IsFinished(env, t, task)
  }

  lemma StartFollows(env: Env, s: Store, task: Task)
    requires IsSettled(env, s, None) && task !in s.outcomes
    ensures Follows(env, s, task, Start(env, task))
  {
  }

  /** Nothing is lost of what was settled before the attempts. */
  lemma AttemptsSettle(env: Env, s: Store, task: Task, t: Store)
    requires IsSettled(env, s, None) && task !in s.outcomes && OthersStay(s, t, task)
    requires forall key | key in t.slots && key.task == task :: IsOpen(env, t, task, key.attempt)
    ensures IsSettled(env, t, Some(task))
  {
    hide IsOpen, LeadsTo, Extends;
    forall key | key in t.slots && key.task != task ensures IsOpen(env, t, key.task, key.attempt) {
      SameHeard(env, s, t, key.task, key.attempt);
    }
    forall b | b in t.outcomes ensures LeadsTo(env, t, b, t.outcomes[b]) {
      LeadStays(env, s, t, b, t.outcomes[b]);
    }
  }

  lemma RecordSettles(env: Env, t: Store, task: Task, outcome: Outcome)
    requires IsSettled(env, t, Some(task)) && LeadsTo(env, t, task, outcome) && OnlyExhausted(t, None)
    ensures var u := t.(outcomes := t.outcomes[task := outcome]); IsSettled(env, u, None) && OnlyExhausted(u, Some(task)) && Extends(t, u)
  {
    hide IsOpen, LeadsTo;
    var u := t.(outcomes := t.outcomes[task := outcome]);
    RecordExtends(t, task, outcome);
    forall key | key in u.slots ensures IsOpen(env, u, key.task, key.attempt) {
      SameHeard(env, t, u, key.task, key.attempt);
    }
    forall b | b in u.outcomes ensures LeadsTo(env, u, b, u.outcomes[b]) {
      LeadStays(env, t, u, b, u.outcomes[b]);
    }
  }

  lemma UndecidedIsUnfinished(env: Env, t: Store, task: Task)
    requires IsSettled(env, t, Some(task)) && (IsRefused(env, t, task) || IsWaiting(env, t, task))
    ensures !IsFinished(env, t, task)
  {
    hide IsSettled, IsAccepted, IsRefused, IsCutOff, IsWaiting, IsOpen;
    SettledFate(env, t, Some(task), task);
    OneFate(env, t, task);
  }

  lemma {:induction false} ExecuteAnswers(env: Env, s: Store, task: Task, w: nat)
    requires IsSettled(env, s, None) && OnlyExhausted(s, None)
    ensures Execute(env, s, task, w).Ran? ==> Answers(env, Execute(env, s, task, w).store, task, Execute(env, s, task, w).value)
    decreases |task|, 2
  {
    hide IsSettled, OnlyExhausted, Attempts, Replay, IsFinished, LeadsTo, OthersStay, IsOpen, IsRefused, IsWaiting, Follows;
    if task in s.outcomes {
      MoreExhausted(s, task);
      ReplayAnswers(env, s, task, s.outcomes[task], w);
    } else {
      StartFollows(env, s, task);
      AttemptsHear(env, s, task, Start(env, task), w);
      match Attempts(env, s, task, Start(env, task), w)
      case Crashed(t) =>
      case Ran(t, w1, d) =>
        AttemptsSettle(env, s, task, t);
        SameExhausted(s, t, task);
        if d.Decided? {
          if w1 > 0 {
            RecordSettles(env, t, task, d.outcome);
            ReplayAnswers(env, t.(outcomes := t.outcomes[task := d.outcome]), task, d.outcome, w1 - 1);
          }
        } else {
          UndecidedIsUnfinished(env, t, task);
        }
    }
  }

  lemma MoreExhausted(s: Store, task: Task)
    requires OnlyExhausted(s, None)
    ensures OnlyExhausted(s, Some(task))
  {
  }

  lemma SameExhausted(s: Store, t: Store, task: Task)
    requires OnlyExhausted(s, None) && OthersStay(s, t, task)
    ensures OnlyExhausted(t, None)
  {
  }

  lemma {:induction false} ReplayAnswers(env: Env, s: Store, task: Task, outcome: Outcome, w: nat)
    requires IsSettled(env, s, None) && OnlyExhausted(s, Some(task)) && task in s.outcomes && s.outcomes[task] == outcome
    ensures Replay(env, s, task, outcome, w).Ran? ==> Answers(env, Replay(env, s, task, outcome, w).store, task, Replay(env, s, task, outcome, w).value)
    decreases |task|, 1
  {
    hide IsSettled, Execute, IsFinished, IsCutOff, IsAccepted, IsOpen, HasReport, Extends, Fails;
    SettledFate(env, s, None, task);
    match outcome
    case Complete(results) =>
      ReportIsAccepted(env, s, task, results);
      AcceptedIsFinished(env, s, task);
    case Exhausted =>
      CutOffIsUnfinished(env, s, task);
      ExhaustedFails(env, s, task);
    case Split =>
      var m := |task| / 2;
      ExecuteAnswers(env, s, task[..m], w);
      ExecuteExtends(env, s, task[..m], w);
      match Execute(env, s, task[..m], w)
      case Crashed(t) =>
      case Ran(t, w1, left) =>
        FateStays(env, s, t, task);
        if left.Done? {
          ExecuteAnswers(env, t, task[m..], w1);
          ExecuteExtends(env, t, task[m..], w1);
          match Execute(env, t, task[m..], w1)
          case Crashed(u) =>
          case Ran(u, w2, right) =>
            FateStays(env, t, u, task);
            FinishedStays(env, t, u, task[..m]);
            HalvesDecide(env, u, task, right);
        } else {
          HalvesDecide(env, t, task, left);
        }
  }

  lemma AcceptedIsFinished(env: Env, s: Store, task: Task)
    requires IsAccepted(env, s, task)
    ensures IsFinished(env, s, task)
  {
    hide IsAccepted;
  }

  lemma CutOffIsUnfinished(env: Env, s: Store, task: Task)
    requires IsCutOff(env, s, task) && |task| <= 1 && forall key | key in s.slots && key.task == task :: IsOpen(env, s, task, key.attempt)
    ensures !IsFinished(env, s, task)
  {
    hide IsCutOff, IsOpen, IsAccepted;
    OneFate(env, s, task);
  }

  lemma ExhaustedFails(env: Env, s: Store, task: Task)
    requires IsSettled(env, s, None) && task in s.outcomes && s.outcomes[task].Exhausted?
    ensures Fails(env, s, OutOfCapacity)
  {
    hide IsSettled;
  }

  ghost predicate IsOrderly(env: Env, s: Store) {
    forall key | key in s.slots :: IsOpen(env, s, key.task, key.attempt)
  }

  /** Every store of an answer is orderly. */
  lemma AnswerIsOrderly(env: Env, t: Store, task: Task, value: Result)
    requires Answers(env, t, task, value)
    ensures IsOrderly(env, t)
  {
    hide IsOpen, LeadsTo, IsFinished, OnlyExhausted, IsRefused, IsWaiting;
  }

  /** A batch that was cut off is finished exactly when both halves are. */
  lemma HalvesDecide(env: Env, t: Store, task: Task, last: Result)
    requires |task| >= 2 && IsCutOff(env, t, task)
    requires (!last.Done? && Answers(env, t, task[..|task| / 2], last)) || (IsFinished(env, t, task[..|task| / 2]) && Answers(env, t, task[|task| / 2..], last))
    ensures last.Done? ==> Answers(env, t, task, Done([]))
    ensures !last.Done? ==> Answers(env, t, task, last)
  {
    hide IsCutOff, IsAccepted, IsSettled, IsOpen, Fails, OnlyExhausted, IsOrderly;
    if Answers(env, t, task[..|task| / 2], last) {
      AnswerIsOrderly(env, t, task[..|task| / 2], last);
    } else {
      AnswerIsOrderly(env, t, task[|task| / 2..], last);
    }
    OrderlyFate(env, t, task);
  }

  lemma OrderlyFate(env: Env, t: Store, task: Task)
    requires IsOrderly(env, t) && IsCutOff(env, t, task)
    ensures !IsAccepted(env, t, task)
  {
    hide IsCutOff, IsOpen, IsAccepted;
    OneFate(env, t, task);
  }

  lemma AnswerIsExact(env: Env, t: Store, task: Task, value: Result)
    requires Answers(env, t, task, value)
    ensures value.OutOfCapacity? <==> SomeUnitIsTooLong(env, t)
    ensures value.Invalid? <==> SomeBatchIsRefused(env, t)
    ensures value.Done? <==> IsFinished(env, t, task)
    ensures value.OutOfCalls? ==> t.calls >= env.cap
    ensures !value.Corrupt?
  {
    hide IsSettled, IsCutOff, IsRefused, IsFinished, IsWaiting;
    var open: Option<Task> := None;
    if value.Invalid? {
      var b :| IsSettled(env, t, Some(b)) && IsRefused(env, t, b);
      open := Some(b);
    } else if value.OutOfCalls? {
      var b :| IsSettled(env, t, Some(b)) && IsWaiting(env, t, b);
      open := Some(b);
    }
    forall b: Task ensures |b| <= 1 && IsCutOff(env, t, b) ==> value.OutOfCapacity?
    ensures IsRefused(env, t, b) ==> value.Invalid? {
      if open == Some(b) {
        SettledOpen(env, t, b);
      } else {
        SettledSays(env, t, open, b);
      }
    }
    if value.OutOfCapacity? {
      var b :| b in t.outcomes && t.outcomes[b].Exhausted?;
      ExhaustedIsTooLong(env, t, b);
    }
  }

  lemma SettledOpen(env: Env, t: Store, b: Task)
    requires IsSettled(env, t, Some(b)) && (IsRefused(env, t, b) || IsWaiting(env, t, b))
    ensures !IsCutOff(env, t, b) && (IsWaiting(env, t, b) ==> !IsRefused(env, t, b))
  {
    hide IsSettled, IsAccepted, IsRefused, IsCutOff, IsWaiting, IsOpen;
    SettledFate(env, t, Some(b), b);
    OneFate(env, t, b);
  }

  lemma ExhaustedIsTooLong(env: Env, t: Store, b: Task)
    requires IsSettled(env, t, None) && b in t.outcomes && t.outcomes[b].Exhausted?
    ensures |b| <= 1 && IsCutOff(env, t, b)
  {
    hide IsOpen, IsCutOff;
  }

  /** MAIN RESULT: with any crashes, a review is out of capacity exactly when a single unit was cut off
      with nothing left to grow, invalid exactly when a batch got two replies that break the format, done
      exactly when the batches that halving ends in were all reported, and out of calls otherwise, with
      the cap used up. No batch is asked again after a reply that decides. */
  lemma AnswerIsTheReplies(env: Env, task: Task, crashes: seq<nat>)
    requires crashes != [] && Resumed(env, Store(0, map[], map[]), task, crashes).Ran?
    ensures var end := Resumed(env, Store(0, map[], map[]), task, crashes);
      && (end.value.OutOfCapacity? <==> SomeUnitIsTooLong(env, end.store))
      && (end.value.Invalid? <==> SomeBatchIsRefused(env, end.store))
      && (end.value.Done? <==> IsFinished(env, end.store, task))
      && (end.value.OutOfCalls? <==> !SomeUnitIsTooLong(env, end.store) && !SomeBatchIsRefused(env, end.store) && !IsFinished(env, end.store, task))
      && (end.value.OutOfCalls? ==> end.store.calls == env.cap) && IsOrderly(env, end.store)
  {
    hide Execute, Resumed, Budget, Answers, SomeUnitIsTooLong, SomeBatchIsRefused, IsFinished, IsOrderly;
    var s := Store(0, map[], map[]);
    var w := Budget(env, s, task, crashes);
    CrashesDoNotMatter(env, s, task, crashes);
    ExecuteAnswers(env, s, task, w);
    ExecuteCounts(env, s, task, w);
    var end := Execute(env, s, task, w);
    AnswerIsExact(env, end.store, task, end.value);
    AnswerIsOrderly(env, end.store, task, end.value);
  }
}
