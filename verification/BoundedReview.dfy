/** The resumable review of a list of units: split on truncation, grow, or give up
    (internal/investigator/bounded_review.go; `reserveReviewCall`, content_review.go).

    Every durable write consumes one unit of a write budget, and a worker crashes when it needs a
    write and has none left. So a crash point is a number of writes, and resuming is running the same
    code on the store that the crashed worker left. */
module BoundedReview {
  import opened Wrappers

  type Task = seq<string>
  datatype CallKey = CallKey(task: Task, attempt: nat)
  datatype Outcome = Complete(results: seq<string>) | Split | Exhausted
  datatype Store = Store(calls: nat, slots: map<CallKey, nat>, outcomes: map<Task, Outcome>)

  /** What the model answers in a slot: one verdict for each listed unit, text that breaks the
      format, or an answer cut off at its output limit. */
  datatype Reply = Report(units: seq<string>) | Malformed | Truncated

  /** `grows` is the policy that lets a batch grow once before it is split; `available` is the output
      capacity left for a task, smaller once a format error has been added to its input. */
  datatype Env = Env(cap: nat, replies: nat -> Reply, grows: bool, initial: Task -> nat, available: (Task, nat) -> nat)

  datatype Result = Done(results: seq<string>) | OutOfCapacity | Invalid | OutOfCalls | Corrupt

  /** A crash, or the store, the writes left and the value. */
  datatype Run<T> = Crashed(store: Store) | Ran(store: Store, left: nat, value: T)

  // ----- durable slots

  /** `reserveReviewCall`: the slot first, then the call counter. */
  function Reserve(env: Env, s: Store, key: CallKey, w: nat): Run<Option<nat>> {
    if key !in s.slots && s.calls >= env.cap then Ran(s, w, None)
    else if key !in s.slots && w == 0 then Crashed(s)
    else
      var call := if key in s.slots then s.slots[key] else s.calls;
      var s1 := s.(slots := s.slots[key := call]);
      var w1 := if key in s.slots then w else w - 1;
      if s1.calls > call then Ran(s1, w1, Some(call))
      else if w1 == 0 then Crashed(s1)
      else Ran(s1.(calls := call + 1), w1 - 1, Some(call))
  }

  // ----- the attempts at one batch

  /** The local variables of the retry loop; they do not survive a crash. */
  datatype Local = Local(attempt: nat, tokens: nat, formatErrors: nat, grown: bool)
  datatype Decision = Decided(outcome: Outcome) | BadFormat | NoCalls

  /** Each unit is reported exactly once. */
  predicate IsReportOf(task: Task, results: seq<string>) {
    && |results| == |task| && (forall i, j | 0 <= i < j < |results| :: results[i] != results[j])
    && forall r | r in results :: r in task
  }

  function Min(a: nat, b: nat): nat { if a < b then a else b }

  function Used(env: Env, task: Task, l: Local): nat {
    Min(l.tokens, env.available(task, l.formatErrors))
  }

  datatype Next = Stop(decision: Decision) | Again(local: Local)

  /** What the loop does with a reply. */
  function React(env: Env, task: Task, l: Local, reply: Reply): Next {
    var used, available := Used(env, task, l), env.available(task, l.formatErrors);
    var next := Min(available, used * 2);
    match reply
    case Truncated =>
      if |task| > 1 then
        if env.grows && !l.grown && next > used then Again(l.(attempt := l.attempt + 1, tokens := next, grown := true)) else Stop(Decided(Split))
      else if next <= used then Stop(Decided(Exhausted))
      else Again(l.(attempt := l.attempt + 1, tokens := next))
    case Malformed =>
      if l.formatErrors + 1 >= 2 then Stop(BadFormat) else Again(l.(attempt := l.attempt + 1, formatErrors := l.formatErrors + 1))
    case Report(units) =>
      if IsReportOf(task, units) then Stop(Decided(Complete(units)))
      else if l.formatErrors + 1 >= 2 then Stop(BadFormat)
      else Again(l.(attempt := l.attempt + 1, formatErrors := l.formatErrors + 1))
  }

  function Attempts(env: Env, s: Store, task: Task, l: Local, w: nat): Run<Decision>
    decreases 2 - l.formatErrors, if l.grown then 0 else 1, env.available(task, l.formatErrors) - Used(env, task, l)
  {
    match Reserve(env, s, CallKey(task, l.attempt), w)
    case Crashed(t) => Crashed(t)
    case Ran(t, w1, None) => Ran(t, w1, NoCalls)
    case Ran(t, w1, Some(slot)) =>
      match React(env, task, l, env.replies(slot))
      case Stop(d) => Ran(t, w1, d)
      case Again(l1) => Attempts(env, t, task, l1, w1)
  }

  function Start(env: Env, task: Task): Local {
    Local(0, env.initial(task), 0, false)
  }

  // ----- tasks

  function Execute(env: Env, s: Store, task: Task, w: nat): Run<Result>
    decreases |task|, 2
  {
    if task in s.outcomes then Replay(env, s, task, s.outcomes[task], w)
    else
      match Attempts(env, s, task, Start(env, task), w)
      case Crashed(t) => Crashed(t)
      case Ran(t, w1, NoCalls) => Ran(t, w1, OutOfCalls)
      case Ran(t, w1, BadFormat) => Ran(t, w1, Invalid)
      case Ran(t, w1, Decided(outcome)) =>
        if w1 == 0 then Crashed(t) else Replay(env, t.(outcomes := t.outcomes[task := outcome]), task, outcome, w1 - 1)
  }

  /** What a recorded outcome leads to. A saved report is checked again. */
  function Replay(env: Env, s: Store, task: Task, outcome: Outcome, w: nat): Run<Result>
    decreases |task|, 1
  {
    match outcome
    case Complete(results) => Ran(s, w, if IsReportOf(task, results) then Done(results) else Corrupt)
    case Exhausted => Ran(s, w, OutOfCapacity)
    case Split => if |task| < 2 then Ran(s, w, Corrupt) else Children(env, s, task, w)
  }

  function Children(env: Env, s: Store, task: Task, w: nat): Run<Result>
    requires |task| >= 2
    decreases |task|, 0
  {
    var middle := |task| / 2;
    match Execute(env, s, task[..middle], w)
    case Crashed(t) => Crashed(t)
    case Ran(t, w1, Done(left)) =>
      (match Execute(env, t, task[middle..], w1)
       case Crashed(u) => Crashed(u)
       case Ran(u, w2, Done(right)) => Ran(u, w2, Done(left + right))
       case Ran(u, w2, r) => Ran(u, w2, r))
    case Ran(t, w1, r) => Ran(t, w1, r)
  }

  // ----- every unit has one result

  lemma DistinctCover(task: Task, results: seq<string>)
    requires IsReportOf(task, results)
    ensures multiset(results) == multiset(task)
  {
    DistinctCount(results);
    DistinctSize(results);
    var reported, asked := set r | r in results, set r | r in task;
    assert reported <= asked;
    SizeAtMost(task);
    SameSize(reported, asked);
    SetSizeDistinct(task);
    DistinctCount(task);
    forall x ensures multiset(results)[x] == multiset(task)[x] {
      assert x in reported <==> x in results;
      assert x in asked <==> x in task;
    }
  }

  lemma {:induction false} DistinctCount(s: seq<string>)
    requires forall i, j | 0 <= i < j < |s| :: s[i] != s[j]
    ensures forall x :: multiset(s)[x] == if x in s then 1 else 0
  {
    if s != [] {
      var front, last := s[..|s| - 1], s[|s| - 1];
      DistinctCount(front);
      assert s == front + [last];
      assert last !in front;
    }
  }

  lemma {:induction false} DistinctSize(s: seq<string>)
    requires forall i, j | 0 <= i < j < |s| :: s[i] != s[j]
    ensures |set x | x in s| == |s|
  {
    if s != [] {
      var front, last := s[..|s| - 1], s[|s| - 1];
      DistinctSize(front);
      assert s == front + [last] && last !in front;
      assert (set x | x in s) == (set x | x in front) + {last};
    }
  }

  lemma {:induction false} SizeAtMost(s: seq<string>)
    ensures |set x | x in s| <= |s|
  {
    if s != [] {
      var front, last := s[..|s| - 1], s[|s| - 1];
      SizeAtMost(front);
      assert s == front + [last];
      assert (set x | x in s) == (set x | x in front) + {last};
    }
  }

  lemma SameSize(a: set<string>, b: set<string>)
    requires a <= b && |a| >= |b|
    ensures a == b
  {
    assert |b - a| == |b| - |a|;
  }

  lemma {:induction false} SetSizeDistinct(s: seq<string>)
    requires |set x | x in s| == |s|
    ensures forall i, j | 0 <= i < j < |s| :: s[i] != s[j]
  {
    if s != [] {
      var front, last := s[..|s| - 1], s[|s| - 1];
      assert s == front + [last];
      SizeAtMost(front);
      assert (set x | x in s) == (set x | x in front) + {last};
      SetSizeDistinct(front);
      assert last !in front;
    }
  }

  /** The results of whole batches, in task order; within one batch in the order of its report. */
  ghost predicate InBatches(task: Task, results: seq<string>)
    decreases |task|
  {
    IsReportOf(task, results)
    || (|task| >= 2 && |results| == |task|
        && InBatches(task[..|task| / 2], results[..|task| / 2]) && InBatches(task[|task| / 2..], results[|task| / 2..]))
  }

  lemma {:induction false} BatchesCover(task: Task, results: seq<string>)
    requires InBatches(task, results)
    ensures multiset(results) == multiset(task) && |results| == |task|
    decreases |task|
  {
    if IsReportOf(task, results) {
      DistinctCover(task, results);
    } else {
      var m := |task| / 2;
      BatchesCover(task[..m], results[..m]);
      BatchesCover(task[m..], results[m..]);
      assert task == task[..m] + task[m..] && results == results[..m] + results[m..];
    }
  }

  /** MAIN RESULT: a finished review has exactly one result for every unit, batch by batch in the
      order of the task; anything else is a definite failure. */
  lemma EveryUnitIsReviewed(env: Env, s: Store, task: Task, w: nat)
    ensures Execute(env, s, task, w).Ran? && Execute(env, s, task, w).value.Done? ==>
      var results := Execute(env, s, task, w).value.results;
      InBatches(task, results) && multiset(results) == multiset(task)
  {
    ExecuteInBatches(env, s, task, w);
    if Execute(env, s, task, w).Ran? && Execute(env, s, task, w).value.Done? {
      BatchesCover(task, Execute(env, s, task, w).value.results);
    }
  }

  lemma {:induction false} ExecuteInBatches(env: Env, s: Store, task: Task, w: nat)
    ensures Execute(env, s, task, w).Ran? && Execute(env, s, task, w).value.Done? ==> InBatches(task, Execute(env, s, task, w).value.results)
    decreases |task|, 2
  {
    hide Attempts, Children;
    if task in s.outcomes {
      ReplayInBatches(env, s, task, s.outcomes[task], w);
    } else {
      match Attempts(env, s, task, Start(env, task), w)
      case Ran(t, w1, Decided(outcome)) =>
        if w1 > 0 {
          ReplayInBatches(env, t.(outcomes := t.outcomes[task := outcome]), task, outcome, w1 - 1);
        }
      case _ =>
    }
  }

  lemma {:induction false} ReplayInBatches(env: Env, s: Store, task: Task, outcome: Outcome, w: nat)
    ensures Replay(env, s, task, outcome, w).Ran? && Replay(env, s, task, outcome, w).value.Done? ==>
      InBatches(task, Replay(env, s, task, outcome, w).value.results)
    decreases |task|, 1
  {
    hide Execute;
    if outcome.Split? && |task| >= 2 {
      var m := |task| / 2;
      ExecuteInBatches(env, s, task[..m], w);
      match Execute(env, s, task[..m], w)
      case Ran(t, w1, Done(left)) =>
        ExecuteInBatches(env, t, task[m..], w1);
        match Execute(env, t, task[m..], w1) {
          case Ran(u, w2, Done(right)) =>
            InBatchesLength(task[..m], left);
            InBatchesLength(task[m..], right);
            assert (left + right)[..m] == left && (left + right)[m..] == right;
          case _ =>
        }
      case _ =>
    }
  }

  lemma InBatchesLength(task: Task, results: seq<string>)
    requires InBatches(task, results)
    ensures |results| == |task|
  {
  }

  /** Within one batch the order is the model's: a report may list the units backwards. */
  lemma OrderIsTheReports(env: Env)
    requires env.cap > 0 && env.replies(0) == Report(["b", "a"])
    ensures Execute(env, Store(0, map[], map[]), ["a", "b"], 3).Ran?
      && Execute(env, Store(0, map[], map[]), ["a", "b"], 3).value == Done(["b", "a"])
  {
    var task := ["a", "b"];
    assert IsReportOf(task, ["b", "a"]);
  }

  // ----- stores only grow

  ghost predicate Extends(s: Store, t: Store) {
    && s.calls <= t.calls
    && (forall key {:trigger key in s.slots} {:trigger t.slots[key]} | key in s.slots :: key in t.slots && t.slots[key] == s.slots[key])
    && (forall task {:trigger task in s.outcomes} {:trigger t.outcomes[task]} | task in s.outcomes :: task in t.outcomes && t.outcomes[task] == s.outcomes[task])
  }

  lemma ExtendsTransitive(s: Store, t: Store, u: Store)
    requires Extends(s, t) && Extends(t, u)
    ensures Extends(s, u)
  {
  }

  lemma ReserveExtends(env: Env, s: Store, key: CallKey, w: nat)
    ensures Extends(s, Reserve(env, s, key, w).store)
    ensures Reserve(env, s, key, w).Ran? ==> Reserve(env, s, key, w).left <= w
    ensures Reserve(env, s, key, w).Ran? && Reserve(env, s, key, w).value.Some? ==>
      var t, slot := Reserve(env, s, key, w).store, Reserve(env, s, key, w).value.value;
      key in t.slots && t.slots[key] == slot && slot < t.calls && t.outcomes == s.outcomes
  {
  }

  /** A completed reservation is found again, without a write. */
  lemma ReserveAgain(env: Env, s: Store, key: CallKey, w: nat, t: Store, v: nat)
    requires Reserve(env, s, key, w).Ran? && Reserve(env, s, key, w).value.Some? && Extends(Reserve(env, s, key, w).store, t)
    ensures Reserve(env, t, key, v) == Ran(t, v, Reserve(env, s, key, w).value)
  {
    ReserveExtends(env, s, key, w);
    assert t.slots[key := t.slots[key]] == t.slots;
  }

  lemma {:induction false} AttemptsExtend(env: Env, s: Store, task: Task, l: Local, w: nat)
    ensures Extends(s, Attempts(env, s, task, l, w).store) && Attempts(env, s, task, l, w).store.outcomes == s.outcomes
    ensures Attempts(env, s, task, l, w).Ran? ==> Attempts(env, s, task, l, w).left <= w
    decreases 2 - l.formatErrors, if l.grown then 0 else 1, env.available(task, l.formatErrors) - Used(env, task, l)
  {
    hide Extends;
    var key := CallKey(task, l.attempt);
    ReserveExtends(env, s, key, w);
    ReserveKeepsOutcomes(env, s, key, w);
    match Reserve(env, s, key, w)
    case Ran(t, w1, Some(slot)) =>
      match React(env, task, l, env.replies(slot)) {
        case Again(l1) =>
          AttemptsExtend(env, t, task, l1, w1);
          ExtendsTransitive(s, t, Attempts(env, t, task, l1, w1).store);
        case Stop(d) =>
      }
    case _ =>
  }

  lemma ReserveKeepsOutcomes(env: Env, s: Store, key: CallKey, w: nat)
    ensures Reserve(env, s, key, w).store.outcomes == s.outcomes
  {
  }

  /** Attempts that reached a decision reach it again, without a write. */
  lemma {:induction false} AttemptsAgain(env: Env, s: Store, task: Task, l: Local, w: nat, t: Store, v: nat)
    requires Attempts(env, s, task, l, w).Ran? && !Attempts(env, s, task, l, w).value.NoCalls? && Extends(Attempts(env, s, task, l, w).store, t)
    ensures Attempts(env, t, task, l, v) == Ran(t, v, Attempts(env, s, task, l, w).value)
    decreases 2 - l.formatErrors, if l.grown then 0 else 1, env.available(task, l.formatErrors) - Used(env, task, l)
  {
    hide Extends;
    var key := CallKey(task, l.attempt);
    match Reserve(env, s, key, w)
    case Ran(s1, w1, Some(slot)) =>
      match React(env, task, l, env.replies(slot)) {
        case Again(l1) =>
          AttemptsExtend(env, s1, task, l1, w1);
          ExtendsTransitive(s1, Attempts(env, s1, task, l1, w1).store, t);
          ReserveAgain(env, s, key, w, t, v);
          AttemptsAgain(env, s1, task, l1, w1, t, v);
        case Stop(d) =>
          ReserveAgain(env, s, key, w, t, v);
      }
    case _ =>
  }

  lemma {:induction false} ExecuteExtends(env: Env, s: Store, task: Task, w: nat)
    ensures Extends(s, Execute(env, s, task, w).store)
    decreases |task|, 2
  {
    hide Extends, Attempts;
    if task in s.outcomes {
      ReplayExtends(env, s, task, s.outcomes[task], w);
    } else {
      AttemptsExtend(env, s, task, Start(env, task), w);
      match Attempts(env, s, task, Start(env, task), w)
      case Ran(t, w1, Decided(outcome)) =>
        if w1 > 0 {
          var u := t.(outcomes := t.outcomes[task := outcome]);
          RecordExtends(t, task, outcome);
          ReplayExtends(env, u, task, outcome, w1 - 1);
          ExtendsTransitive(s, t, u);
          ExtendsTransitive(s, u, Replay(env, u, task, outcome, w1 - 1).store);
        }
      case _ =>
    }
  }

  lemma RecordExtends(t: Store, task: Task, outcome: Outcome)
    requires task !in t.outcomes
    ensures Extends(t, t.(outcomes := t.outcomes[task := outcome]))
  {
  }

  lemma ExtendsItself(s: Store)
    ensures Extends(s, s)
  {
  }

  lemma {:induction false} ReplayExtends(env: Env, s: Store, task: Task, outcome: Outcome, w: nat)
    ensures Extends(s, Replay(env, s, task, outcome, w).store)
    decreases |task|, 1
  {
    hide Extends, Execute;
    ExtendsItself(s);
    if outcome.Split? && |task| >= 2 {
      var m := |task| / 2;
      ExecuteExtends(env, s, task[..m], w);
      match Execute(env, s, task[..m], w)
      case Ran(t, w1, Done(left)) =>
        ExecuteExtends(env, t, task[m..], w1);
        ExtendsTransitive(s, t, Execute(env, t, task[m..], w1).store);
      case _ =>
    }
  }

  // ----- finished work is replayed

  predicate IsSettled(r: Result) {
    r.Done? || r.OutOfCapacity?
  }

  lemma {:induction false} ExecuteAgain(env: Env, s: Store, task: Task, w: nat, t: Store, v: nat)
    requires Execute(env, s, task, w).Ran? && IsSettled(Execute(env, s, task, w).value) && Extends(Execute(env, s, task, w).store, t)
    ensures Execute(env, t, task, v) == Ran(t, v, Execute(env, s, task, w).value)
    decreases |task|, 2
  {
    hide Extends, Attempts, Replay;
    if task in s.outcomes {
      ReplayExtends(env, s, task, s.outcomes[task], w);
      RecordedIn(s, Execute(env, s, task, w).store, t, task);
      ReplayAgain(env, s, task, s.outcomes[task], w, t, v);
    } else {
      match Attempts(env, s, task, Start(env, task), w)
      case Ran(a, w1, Decided(outcome)) =>
        var u := a.(outcomes := a.outcomes[task := outcome]);
        ReplayExtends(env, u, task, outcome, w1 - 1);
        RecordedIn(u, Execute(env, s, task, w).store, t, task);
        ReplayAgain(env, u, task, outcome, w1 - 1, t, v);
      case _ =>
    }
  }

  lemma RecordedIn(s: Store, t: Store, u: Store, task: Task)
    requires Extends(s, t) && Extends(t, u) && task in s.outcomes
    ensures task in u.outcomes && u.outcomes[task] == s.outcomes[task]
  {
  }

  lemma {:induction false} ReplayAgain(env: Env, s: Store, task: Task, outcome: Outcome, w: nat, t: Store, v: nat)
    requires Replay(env, s, task, outcome, w).Ran? && IsSettled(Replay(env, s, task, outcome, w).value) && Extends(Replay(env, s, task, outcome, w).store, t)
    ensures Replay(env, t, task, outcome, v) == Ran(t, v, Replay(env, s, task, outcome, w).value)
    decreases |task|, 1
  {
    hide Extends, Execute;
    if outcome.Split? {
      var m := |task| / 2;
      var left := Execute(env, s, task[..m], w);
      if left.value.Done? {
        ExecuteExtends(env, left.store, task[m..], left.left);
        var b := Execute(env, left.store, task[m..], left.left).store;
        ExtendsTransitive(left.store, b, t);
        ExecuteAgain(env, s, task[..m], w, t, v);
        ExecuteAgain(env, left.store, task[m..], left.left, t, v);
      } else {
        ExecuteAgain(env, s, task[..m], w, t, v);
      }
    }
  }

  // ----- resuming after a crash

  lemma ReserveResumes(env: Env, s: Store, key: CallKey, w: nat, v: nat)
    requires Reserve(env, s, key, w).Crashed?
    ensures Reserve(env, Reserve(env, s, key, w).store, key, v) == Reserve(env, s, key, w + v)
  {
    var t := Reserve(env, s, key, w).store;
    if key in t.slots {
      assert t.slots[key := t.slots[key]] == t.slots;
    }
  }

  lemma ReserveWithMore(env: Env, s: Store, key: CallKey, w: nat, v: nat)
    requires Reserve(env, s, key, w).Ran?
    ensures Reserve(env, s, key, w + v) == Reserve(env, s, key, w).(left := Reserve(env, s, key, w).left + v)
  {
  }

  lemma {:induction false} AttemptsWithMore(env: Env, s: Store, task: Task, l: Local, w: nat, v: nat)
    requires Attempts(env, s, task, l, w).Ran?
    ensures Attempts(env, s, task, l, w + v) == Attempts(env, s, task, l, w).(left := Attempts(env, s, task, l, w).left + v)
    decreases 2 - l.formatErrors, if l.grown then 0 else 1, env.available(task, l.formatErrors) - Used(env, task, l)
  {
    hide Reserve;
    var key := CallKey(task, l.attempt);
    ReserveWithMore(env, s, key, w, v);
    match Reserve(env, s, key, w)
    case Ran(t, w1, Some(slot)) =>
      match React(env, task, l, env.replies(slot)) {
        case Again(l1) => AttemptsWithMore(env, t, task, l1, w1, v);
        case Stop(d) =>
      }
    case _ =>
  }

  lemma {:induction false} AttemptsResume(env: Env, s: Store, task: Task, l: Local, w: nat, v: nat)
    requires Attempts(env, s, task, l, w).Crashed?
    ensures Attempts(env, Attempts(env, s, task, l, w).store, task, l, v) == Attempts(env, s, task, l, w + v)
    decreases 2 - l.formatErrors, if l.grown then 0 else 1, env.available(task, l.formatErrors) - Used(env, task, l)
  {
    hide Extends, Reserve;
    var key, crashed := CallKey(task, l.attempt), Attempts(env, s, task, l, w).store;
    match Reserve(env, s, key, w)
    case Crashed(t) =>
      ReserveResumes(env, s, key, w, v);
    case Ran(t, w1, Some(slot)) =>
      ReserveWithMore(env, s, key, w, v);
      match React(env, task, l, env.replies(slot)) {
        case Again(l1) =>
          AttemptsExtend(env, t, task, l1, w1);
          ReserveAgain(env, s, key, w, crashed, v);
          AttemptsResume(env, t, task, l1, w1, v);
        case Stop(d) =>
      }
    case _ =>
  }

  lemma {:induction false} ExecuteWithMore(env: Env, s: Store, task: Task, w: nat, v: nat)
    requires Execute(env, s, task, w).Ran?
    ensures Execute(env, s, task, w + v) == Execute(env, s, task, w).(left := Execute(env, s, task, w).left + v)
    decreases |task|, 2
  {
    hide Attempts, Replay;
    if task in s.outcomes {
      ReplayWithMore(env, s, task, s.outcomes[task], w, v);
    } else {
      AttemptsWithMore(env, s, task, Start(env, task), w, v);
      match Attempts(env, s, task, Start(env, task), w)
      case Ran(t, w1, Decided(outcome)) =>
        ReplayWithMore(env, t.(outcomes := t.outcomes[task := outcome]), task, outcome, w1 - 1, v);
      case _ =>
    }
  }

  lemma {:induction false} ReplayWithMore(env: Env, s: Store, task: Task, outcome: Outcome, w: nat, v: nat)
    requires Replay(env, s, task, outcome, w).Ran?
    ensures Replay(env, s, task, outcome, w + v) == Replay(env, s, task, outcome, w).(left := Replay(env, s, task, outcome, w).left + v)
    decreases |task|, 1
  {
    hide Execute;
    if outcome.Split? && |task| >= 2 {
      var m := |task| / 2;
      ExecuteWithMore(env, s, task[..m], w, v);
      match Execute(env, s, task[..m], w)
      case Ran(t, w1, Done(left)) => ExecuteWithMore(env, t, task[m..], w1, v);
      case _ =>
    }
  }

  /** Resuming on the store of a crashed worker continues as if it had not crashed. */
  lemma {:induction false} ExecuteResumes(env: Env, s: Store, task: Task, w: nat, v: nat)
    requires Execute(env, s, task, w).Crashed?
    ensures Execute(env, Execute(env, s, task, w).store, task, v) == Execute(env, s, task, w + v)
    decreases |task|, 2
  {
    hide Extends, Attempts, Replay;
    var crashed := Execute(env, s, task, w).store;
    if task in s.outcomes {
      ReplayExtends(env, s, task, s.outcomes[task], w);
      ExtendsItself(crashed);
      RecordedIn(s, crashed, crashed, task);
      ReplayResumes(env, s, task, s.outcomes[task], w, v);
    } else {
      AttemptsExtend(env, s, task, Start(env, task), w);
      match Attempts(env, s, task, Start(env, task), w)
      case Crashed(t) =>
        AttemptsResume(env, s, task, Start(env, task), w, v);
      case Ran(t, w1, Decided(outcome)) =>
        AttemptsWithMore(env, s, task, Start(env, task), w, v);
        if w1 == 0 {
          ExtendsItself(t);
          AttemptsAgain(env, s, task, Start(env, task), w, t, v);
        } else {
          var u := t.(outcomes := t.outcomes[task := outcome]);
          ReplayExtends(env, u, task, outcome, w1 - 1);
          ExtendsItself(crashed);
          RecordedIn(u, crashed, crashed, task);
          ReplayResumes(env, u, task, outcome, w1 - 1, v);
        }
      case _ =>
    }
  }

  lemma {:induction false} ReplayResumes(env: Env, s: Store, task: Task, outcome: Outcome, w: nat, v: nat)
    requires Replay(env, s, task, outcome, w).Crashed?
    ensures Replay(env, Replay(env, s, task, outcome, w).store, task, outcome, v) == Replay(env, s, task, outcome, w + v)
    decreases |task|, 1
  {
    hide Extends, Execute;
    var m, crashed := |task| / 2, Replay(env, s, task, outcome, w).store;
    match Execute(env, s, task[..m], w)
    case Crashed(t) =>
      ExecuteResumes(env, s, task[..m], w, v);
    case Ran(t, w1, Done(left)) =>
      ExecuteWithMore(env, s, task[..m], w, v);
      ExecuteExtends(env, t, task[m..], w1);
      ExecuteAgain(env, s, task[..m], w, crashed, v);
      ExecuteResumes(env, t, task[m..], w1, v);
    case _ =>
  }

  /** Worker after worker, each crashing when its writes are used up. */
  function Resumed(env: Env, s: Store, task: Task, crashes: seq<nat>): Run<Result>
    requires crashes != []
    decreases |crashes|
  {
    var first := Execute(env, s, task, crashes[0]);
    if first.Ran? || |crashes| == 1 then first else Resumed(env, first.store, task, crashes[1..])
  }

  /** The writes that the workers up to the last one could make. */
  function Budget(env: Env, s: Store, task: Task, crashes: seq<nat>): nat
    requires crashes != []
    decreases |crashes|
  {
    var first := Execute(env, s, task, crashes[0]);
    if first.Ran? || |crashes| == 1 then crashes[0] else crashes[0] + Budget(env, first.store, task, crashes[1..])
  }

  /** MAIN RESULT: wherever the workers crash, the review ends in the same store with the same answer
      as one worker that makes as many writes without a crash. */
  lemma {:induction false} CrashesDoNotMatter(env: Env, s: Store, task: Task, crashes: seq<nat>)
    requires crashes != []
    ensures Resumed(env, s, task, crashes) == Execute(env, s, task, Budget(env, s, task, crashes))
    decreases |crashes|
  {
    hide Execute;
    var first := Execute(env, s, task, crashes[0]);
    if first.Crashed? && |crashes| > 1 {
      CrashesDoNotMatter(env, first.store, task, crashes[1..]);
      ExecuteResumes(env, s, task, crashes[0], Budget(env, first.store, task, crashes[1..]));
    }
  }

  // ----- a review always comes to an end

  lemma {:induction false} AttemptsEnd(env: Env, s: Store, task: Task, l: Local) returns (w: nat)
    ensures Attempts(env, s, task, l, w).Ran?
    decreases 2 - l.formatErrors, if l.grown then 0 else 1, env.available(task, l.formatErrors) - Used(env, task, l)
  {
    var key := CallKey(task, l.attempt);
    w := 2;
    match Reserve(env, s, key, 2)
    case Ran(t, w1, Some(slot)) =>
      match React(env, task, l, env.replies(slot)) {
        case Again(l1) =>
          var more := AttemptsEnd(env, t, task, l1);
          ReserveWithMore(env, s, key, 2, more);
          AttemptsWithMore(env, t, task, l1, more, w1);
          w := 2 + more;
          assert w1 + more == more + w1;
        case Stop(d) =>
      }
    case _ =>
  }

  /** Every review has a definite answer after finitely many writes. */
  lemma {:induction false} ReviewEnds(env: Env, s: Store, task: Task) returns (w: nat)
    ensures Execute(env, s, task, w).Ran?
    decreases |task|, 2
  {
    hide Attempts, Replay;
    if task in s.outcomes {
      w := ReplayEnds(env, s, task, s.outcomes[task]);
    } else {
      w := AttemptsEnd(env, s, task, Start(env, task));
      match Attempts(env, s, task, Start(env, task), w)
      case Ran(t, w1, Decided(outcome)) =>
        var u := t.(outcomes := t.outcomes[task := outcome]);
        var more := ReplayEnds(env, u, task, outcome);
        AttemptsWithMore(env, s, task, Start(env, task), w, 1 + more);
        ReplayWithMore(env, u, task, outcome, more, w1);
        w := w + 1 + more;
      case _ =>
    }
  }

  lemma {:induction false} ReplayEnds(env: Env, s: Store, task: Task, outcome: Outcome) returns (w: nat)
    ensures Replay(env, s, task, outcome, w).Ran?
    decreases |task|, 1
  {
    hide Execute;
    w := 0;
    if outcome.Split? && |task| >= 2 {
      var m := |task| / 2;
      w := ReviewEnds(env, s, task[..m]);
      match Execute(env, s, task[..m], w)
      case Ran(t, w1, Done(left)) =>
        var more := ReviewEnds(env, t, task[m..]);
        ExecuteWithMore(env, s, task[..m], w, more);
        ExecuteWithMore(env, t, task[m..], more, w1);
        w := w + more;
        assert w1 + more == more + w1;
      case _ =>
    }
  }

  // ----- the reserved slots

  ghost predicate SlotsDiffer(s: Store) {
    forall a, b | a in s.slots && b in s.slots && a != b :: s.slots[a] != s.slots[b]
  }

  /** Every reserved slot has been counted. */
  ghost predicate IsCounted(env: Env, s: Store) {
    SlotsDiffer(s) && s.calls <= env.cap && forall key | key in s.slots :: s.slots[key] < s.calls
  }

  /** A crash may leave the last reservation uncounted. */
  ghost predicate IsCountedUpTo(env: Env, s: Store) {
    SlotsDiffer(s) && s.calls <= env.cap && forall key | key in s.slots :: s.slots[key] <= s.calls && s.slots[key] < env.cap
  }

  ghost predicate Counts<T>(env: Env, r: Run<T>) {
    IsCountedUpTo(env, r.store) && (r.Ran? ==> IsCounted(env, r.store))
  }

  lemma ReserveCounts(env: Env, s: Store, key: CallKey, w: nat)
    requires IsCounted(env, s)
    ensures Counts(env, Reserve(env, s, key, w))
  {
  }

  lemma {:induction false} AttemptsCount(env: Env, s: Store, task: Task, l: Local, w: nat)
    requires IsCounted(env, s)
    ensures Counts(env, Attempts(env, s, task, l, w))
    decreases 2 - l.formatErrors, if l.grown then 0 else 1, env.available(task, l.formatErrors) - Used(env, task, l)
  {
    hide IsCounted, IsCountedUpTo, Reserve;
    ReserveCounts(env, s, CallKey(task, l.attempt), w);
    match Reserve(env, s, CallKey(task, l.attempt), w)
    case Ran(t, w1, Some(slot)) =>
      match React(env, task, l, env.replies(slot)) {
        case Again(l1) => AttemptsCount(env, t, task, l1, w1);
        case Stop(d) =>
      }
    case _ =>
  }

  lemma {:induction false} ExecuteCounts(env: Env, s: Store, task: Task, w: nat)
    requires IsCounted(env, s)
    ensures Counts(env, Execute(env, s, task, w))
    decreases |task|, 2
  {
    hide Attempts, Replay, SlotsDiffer;
    if task in s.outcomes {
      ReplayCounts(env, s, task, s.outcomes[task], w);
    } else {
      AttemptsCount(env, s, task, Start(env, task), w);
      match Attempts(env, s, task, Start(env, task), w)
      case Ran(t, w1, Decided(outcome)) =>
        if w1 > 0 {
          var u := t.(outcomes := t.outcomes[task := outcome]);
          RecordCounts(env, t, u);
          ReplayCounts(env, u, task, outcome, w1 - 1);
        }
      case _ =>
    }
  }

  lemma RecordCounts(env: Env, t: Store, u: Store)
    requires IsCounted(env, t) && u == t.(outcomes := u.outcomes)
    ensures IsCounted(env, u)
  {
  }

  lemma {:induction false} ReplayCounts(env: Env, s: Store, task: Task, outcome: Outcome, w: nat)
    requires IsCounted(env, s)
    ensures Counts(env, Replay(env, s, task, outcome, w))
    decreases |task|, 1
  {
    hide Execute, SlotsDiffer;
    if outcome.Split? && |task| >= 2 {
      var m := |task| / 2;
      ExecuteCounts(env, s, task[..m], w);
      match Execute(env, s, task[..m], w)
      case Ran(t, w1, Done(left)) => ExecuteCounts(env, t, task[m..], w1);
      case _ =>
    }
  }

  /** MAIN RESULT: with any crashes, no two calls of a review share a slot, and every slot is below
      the iteration cap. */
  lemma SlotsAreDistinct(env: Env, task: Task, crashes: seq<nat>)
    requires crashes != []
    ensures var t := Resumed(env, Store(0, map[], map[]), task, crashes).store;
      SlotsDiffer(t) && forall key | key in t.slots :: t.slots[key] < env.cap
  {
    hide Execute, Resumed, Budget;
    var s := Store(0, map[], map[]);
    CrashesDoNotMatter(env, s, task, crashes);
    ExecuteCounts(env, s, task, Budget(env, s, task, crashes));
  }

  // ----- the order of the results

  /** The reply in a slot reserved for a batch is a report of exactly the units of that batch. */
  predicate IsAccepted(env: Env, key: CallKey, slot: nat) {
    env.replies(slot).Report? && IsReportOf(key.task, env.replies(slot).units)
  }

  /** Every model reply that was accepted for a batch lists the units in the order of that batch. */
  ghost predicate RepliesInOrder(env: Env, s: Store) {
    forall key | key in s.slots && IsAccepted(env, key, s.slots[key]) :: env.replies(s.slots[key]) == Report(key.task)
  }

  ghost predicate RecordedInOrder(s: Store) {
    forall task | task in s.outcomes && s.outcomes[task].Complete? :: s.outcomes[task].results == task
  }

  /** The recorded reports are the accepted replies, and every accepted reply is recorded. */
  ghost predicate RecordsReplies(env: Env, s: Store) {
    && (forall key | key in s.slots && IsAccepted(env, key, s.slots[key]) ::
          key.task in s.outcomes && s.outcomes[key.task] == Complete(env.replies(s.slots[key]).units))
    && forall task | task in s.outcomes && s.outcomes[task].Complete? :: HasReply(env, s, task)
  }

  ghost predicate HasReply(env: Env, s: Store, task: Task)
    requires task in s.outcomes && s.outcomes[task].Complete?
  {
    exists n: nat :: CallKey(task, n) in s.slots && IsAccepted(env, CallKey(task, n), s.slots[CallKey(task, n)])
                     && env.replies(s.slots[CallKey(task, n)]).units == s.outcomes[task].results
  }

  lemma InOrderAlike(env: Env, s: Store)
    requires RecordsReplies(env, s)
    ensures RecordedInOrder(s) <==> RepliesInOrder(env, s)
  {
    if RepliesInOrder(env, s) {
      forall task | task in s.outcomes && s.outcomes[task].Complete? ensures s.outcomes[task].results == task {
        assert HasReply(env, s, task);
      }
    }
  }

  /** A slot reserved for a batch whose outcome is not recorded yet, and what its reply leads to. */
  lemma ReserveRecords(env: Env, s: Store, task: Task, n: nat, w: nat)
    requires RecordsReplies(env, s) && task !in s.outcomes
    requires Reserve(env, s, CallKey(task, n), w).Ran?
    ensures var t := Reserve(env, s, CallKey(task, n), w).store;
      match Reserve(env, s, CallKey(task, n), w).value
      case None => RecordsReplies(env, t)
      case Some(slot) =>
        if IsAccepted(env, CallKey(task, n), slot)
        then RecordsReplies(env, t.(outcomes := t.outcomes[task := Complete(env.replies(slot).units)]))
        else RecordsReplies(env, t)
  {
    var key := CallKey(task, n);
    match Reserve(env, s, key, w)
    case Ran(t, w1, Some(slot)) =>
      ReserveExtends(env, s, key, w);
      assert t.slots == s.slots[key := slot];
      if IsAccepted(env, key, slot) {
        var u := t.(outcomes := t.outcomes[task := Complete(env.replies(slot).units)]);
        RepliesStay(env, s, u);
        assert HasReply(env, u, task);
      } else {
        RepliesStay(env, s, t);
      }
    case _ =>
  }

  lemma RepliesStay(env: Env, s: Store, t: Store)
    requires RecordsReplies(env, s) && Extends(s, t)
    ensures forall task | task in s.outcomes && s.outcomes[task].Complete? :: HasReply(env, t, task)
  {
    forall task | task in s.outcomes && s.outcomes[task].Complete? ensures HasReply(env, t, task) {
      assert HasReply(env, s, task);
      var n: nat :| CallKey(task, n) in s.slots && IsAccepted(env, CallKey(task, n), s.slots[CallKey(task, n)])
                    && env.replies(s.slots[CallKey(task, n)]).units == s.outcomes[task].results;
      assert CallKey(task, n) in t.slots;
    }
  }

  lemma {:induction false} AttemptsRecord(env: Env, s: Store, task: Task, l: Local, w: nat)
    requires RecordsReplies(env, s) && task !in s.outcomes
    ensures Attempts(env, s, task, l, w).Ran? ==>
      var t := Attempts(env, s, task, l, w).store;
      match Attempts(env, s, task, l, w).value
      case Decided(outcome) => RecordsReplies(env, t.(outcomes := t.outcomes[task := outcome]))
      case _ => RecordsReplies(env, t)
    decreases 2 - l.formatErrors, if l.grown then 0 else 1, env.available(task, l.formatErrors) - Used(env, task, l)
  {
    hide RecordsReplies, Reserve;
    var key := CallKey(task, l.attempt);
    match Reserve(env, s, key, w)
    case Ran(t, w1, found) =>
      ReserveRecords(env, s, task, l.attempt, w);
      ReserveKeepsOutcomes(env, s, key, w);
      if found.Some? {
        match React(env, task, l, env.replies(found.value)) {
          case Again(l1) => AttemptsRecord(env, t, task, l1, w1);
          case Stop(Decided(outcome)) =>
            if !outcome.Complete? {
              OtherOutcomeRecords(env, t, task, outcome);
            }
          case _ =>
        }
      }
    case _ =>
  }

  lemma OtherOutcomeRecords(env: Env, t: Store, task: Task, outcome: Outcome)
    requires RecordsReplies(env, t) && task !in t.outcomes && !outcome.Complete?
    ensures RecordsReplies(env, t.(outcomes := t.outcomes[task := outcome]))
  {
    var u := t.(outcomes := t.outcomes[task := outcome]);
    RecordExtends(t, task, outcome);
    RepliesStay(env, t, u);
  }

  lemma {:induction false} ExecuteRecords(env: Env, s: Store, task: Task, w: nat)
    requires RecordsReplies(env, s)
    ensures Execute(env, s, task, w).Ran? ==> RecordsReplies(env, Execute(env, s, task, w).store)
    decreases |task|, 2
  {
    hide RecordsReplies, Attempts, Replay;
    if task in s.outcomes {
      ReplayRecords(env, s, task, s.outcomes[task], w);
    } else {
      AttemptsRecord(env, s, task, Start(env, task), w);
      match Attempts(env, s, task, Start(env, task), w)
      case Ran(t, w1, Decided(outcome)) =>
        if w1 > 0 {
          ReplayRecords(env, t.(outcomes := t.outcomes[task := outcome]), task, outcome, w1 - 1);
        }
      case _ =>
    }
  }

  lemma {:induction false} ReplayRecords(env: Env, s: Store, task: Task, outcome: Outcome, w: nat)
    requires RecordsReplies(env, s)
    ensures Replay(env, s, task, outcome, w).Ran? ==> RecordsReplies(env, Replay(env, s, task, outcome, w).store)
    decreases |task|, 1
  {
    hide RecordsReplies, Execute;
    if outcome.Split? && |task| >= 2 {
      var m := |task| / 2;
      ExecuteRecords(env, s, task[..m], w);
      match Execute(env, s, task[..m], w)
      case Ran(t, w1, Done(left)) => ExecuteRecords(env, t, task[m..], w1);
      case _ =>
    }
  }

  lemma {:induction false} ExecuteInOrder(env: Env, s: Store, task: Task, w: nat)
    requires Execute(env, s, task, w).Ran? && Execute(env, s, task, w).value.Done?
    ensures RecordedInOrder(Execute(env, s, task, w).store) <==> RecordedInOrder(s) && Execute(env, s, task, w).value.results == task
    decreases |task|, 2
  {
    hide Attempts, Replay, Extends, RecordedInOrder;
    if task in s.outcomes {
      ReplayInOrder(env, s, task, s.outcomes[task], w);
    } else {
      AttemptsExtend(env, s, task, Start(env, task), w);
      match Attempts(env, s, task, Start(env, task), w)
      case Ran(t, w1, Decided(outcome)) =>
        ReplayInOrder(env, t.(outcomes := t.outcomes[task := outcome]), task, outcome, w1 - 1);
        RecordInOrder(s, t, task, outcome);
      case _ =>
    }
  }

  lemma RecordInOrder(s: Store, t: Store, task: Task, outcome: Outcome)
    requires t.outcomes == s.outcomes && task !in s.outcomes
    ensures RecordedInOrder(t.(outcomes := t.outcomes[task := outcome]))
      <==> RecordedInOrder(s) && (outcome.Complete? ==> outcome.results == task)
  {
    var u := t.(outcomes := t.outcomes[task := outcome]);
    if RecordedInOrder(u) {
      assert u.outcomes[task] == outcome;
      forall b | b in s.outcomes && s.outcomes[b].Complete? ensures s.outcomes[b].results == b {
        assert b in u.outcomes && u.outcomes[b] == s.outcomes[b];
      }
    }
  }

  lemma {:induction false} ReplayInOrder(env: Env, s: Store, task: Task, outcome: Outcome, w: nat)
    requires task in s.outcomes && s.outcomes[task] == outcome
    requires Replay(env, s, task, outcome, w).Ran? && Replay(env, s, task, outcome, w).value.Done?
    ensures RecordedInOrder(Replay(env, s, task, outcome, w).store) <==> RecordedInOrder(s) && Replay(env, s, task, outcome, w).value.results == task
    ensures outcome.Complete? ==> Replay(env, s, task, outcome, w).value.results == outcome.results
    decreases |task|, 1
  {
    hide Execute;
    if outcome.Split? {
      var m := |task| / 2;
      var left := Execute(env, s, task[..m], w);
      var right := Execute(env, left.store, task[m..], left.left);
      ExecuteInOrder(env, s, task[..m], w);
      ExecuteInOrder(env, left.store, task[m..], left.left);
      ExecuteInBatches(env, s, task[..m], w);
      InBatchesLength(task[..m], left.value.results);
      var all := left.value.results + right.value.results;
      assert all[..m] == left.value.results && all[m..] == right.value.results && task == task[..m] + task[m..];
    }
  }

  /** With any crashes, the results come in the order of the task exactly when every reply accepted
      for a batch lists the units of that batch in order. */
  lemma OrderOfResults(env: Env, task: Task, crashes: seq<nat>)
    requires crashes != []
    requires Resumed(env, Store(0, map[], map[]), task, crashes).Ran? && Resumed(env, Store(0, map[], map[]), task, crashes).value.Done?
    ensures var end := Resumed(env, Store(0, map[], map[]), task, crashes);
      end.value.results == task <==> RepliesInOrder(env, end.store)
  {
    hide Execute, Resumed, Budget, RepliesInOrder;
    var s := Store(0, map[], map[]);
    var w := Budget(env, s, task, crashes);
    CrashesDoNotMatter(env, s, task, crashes);
    ExecuteInOrder(env, s, task, w);
    ExecuteRecords(env, s, task, w);
    InOrderAlike(env, Execute(env, s, task, w).store);
  }
}
