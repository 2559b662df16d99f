/** Shortening the message history of a run (internal/investigator/context.go, draft.go, authoring.go):
    finished tool exchanges that the stored state already represents are left out. */
module ToolHistory {
  import opened Text
  import opened Wrappers

  datatype Role = Assistant | Tool | Other
  datatype Call = Call(id: string, name: string)

  /** `parts` are the texts of a structured message. */
  datatype Message = Message(role: Role, name: string, calls: seq<Call>, toolCallId: string, content: string, parts: seq<string>)

  /** A decoded JSON object, by field, or why there is none. */
  datatype Parsed = Bad | Null | Fields(fields: map<string, string>)

  /** JSON decoding: a text as an object, as a saved observation and as a draft revision without an
      error; `encode` writes an object. */
  datatype Codec = Codec(parse: string -> Parsed, saved: string -> bool, revised: string -> bool, encode: map<string, string> -> string)

  function Concat(parts: seq<string>): string {
    if parts == [] then "" else Concat(parts[..|parts| - 1]) + parts[|parts| - 1]
  }

  function Body(m: Message): string {
    m.content + Concat(m.parts)
  }

  // ----- the protocol

  function Ids(calls: seq<Call>, n: nat): set<string>
    requires n <= |calls|
  {
    if n == 0 then {} else Ids(calls, n - 1) + {calls[n - 1].id}
  }

  function CallIds(m: Message): set<string> {
    Ids(m.calls, |m.calls|)
  }

  /** The open calls after a message; none when it is out of place. */
  function Step(open: set<string>, m: Message): Option<set<string>> {
    match m.role
    case Assistant => if open == {} then Some(CallIds(m)) else None
    case Tool => if m.toolCallId in open then Some(open - {m.toolCallId}) else None
    case Other => if open == {} then Some({}) else None
  }

  function Run(ms: seq<Message>, n: nat): Option<set<string>>
    requires n <= |ms|
  {
    if n == 0 then Some({})
    else
      var front := Run(ms, n - 1);
      if front.None? then None else Step(front.value, ms[n - 1])
  }

  /** Every call is answered, once, before anything else is said. */
  predicate Valid(ms: seq<Message>) {
    Run(ms, |ms|) == Some({})
  }

  /** `validateProtocol`. */
  method ValidateProtocol(ms: seq<Message>) returns (ok: bool)
    ensures ok == Valid(ms)
  {
    var open: set<string> := {};
    var i := 0;
    while i < |ms|
      invariant 0 <= i <= |ms| && Run(ms, i) == Some(open)
    {
      var m := ms[i];
      if m.role == Assistant {
        if open != {} {
          StuckStays(ms, i + 1, |ms|);
          return false;
        }
        for k := 0 to |m.calls|
          invariant open == Ids(m.calls, k)
        {
          open := open + {m.calls[k].id};
        }
      } else if m.role == Tool {
        if m.toolCallId !in open {
          StuckStays(ms, i + 1, |ms|);
          return false;
        }
        open := open - {m.toolCallId};
      } else if open != {} {
        StuckStays(ms, i + 1, |ms|);
        return false;
      }
      i := i + 1;
    }
    ok := open == {};
  }

  lemma {:induction false} StuckStays(ms: seq<Message>, n: nat, end: nat)
    requires n <= end <= |ms| && Run(ms, n).None?
    ensures Run(ms, end).None?
  {
    if n < end {
      StuckStays(ms, n, end - 1);
    }
  }

  // ----- leaving out finished exchanges

  /** Which exchanges are left out: the tools, what a result must say, and whether the last exchange of
      the history may go. */
  datatype Rule = Rule(tools: set<string>, good: string -> bool, dropLast: bool)

  function ObservationRule(c: Codec, dropLast: bool): Rule {
    Rule({"record_observation", "record_source_notes"}, c.saved, dropLast)
  }

  function DraftRule(c: Codec): Rule {
    Rule({"begin_article", "save_article_sections", "update_article_limitations"}, c.revised, true)
  }

  /** The end of the tool results that start at `i`. */
  function ResultsEnd(ms: seq<Message>, i: nat): (j: nat)
    requires i <= |ms|
    ensures i <= j <= |ms| && forall k | i <= k < j :: ms[k].role == Tool
    ensures j < |ms| ==> ms[j].role != Tool
    decreases |ms| - i
  {
    if i == |ms| || ms[i].role != Tool then i else ResultsEnd(ms, i + 1)
  }

  /** Each result answers an open call and is good; the calls that stay open. */
  function Answered(rule: Rule, ms: seq<Message>, i: nat, j: nat, open: set<string>): Option<set<string>>
    requires i <= j <= |ms|
    decreases j - i
  {
    if i == j then Some(open)
    else if ms[i].toolCallId in open && rule.good(Body(ms[i])) then Answered(rule, ms, i + 1, j, open - {ms[i].toolCallId})
    else None
  }

  predicate Droppable(rule: Rule, ms: seq<Message>, i: nat)
    requires i < |ms|
  {
    var j := ResultsEnd(ms, i + 1);
    && ms[i].role == Assistant && ms[i].calls != []
    && (forall k | 0 <= k < |ms[i].calls| :: ms[i].calls[k].name in rule.tools)
    && Answered(rule, ms, i + 1, j, CallIds(ms[i])) == Some({})
    && (j < |ms| || rule.dropLast)
  }

  function ProjectFrom(rule: Rule, ms: seq<Message>, i: nat): seq<Message>
    requires i <= |ms|
    decreases |ms| - i
  {
    if i == |ms| then []
    else if Droppable(rule, ms, i) then ProjectFrom(rule, ms, ResultsEnd(ms, i + 1))
    else [ms[i]] + ProjectFrom(rule, ms, i + 1)
  }

  function Project(rule: Rule, ms: seq<Message>): seq<Message> {
    ProjectFrom(rule, ms, 0)
  }

  /** The results of one exchange, read as the engine does: a flag that a bad one clears. */
  method ReadResults(rule: Rule, ms: seq<Message>, i: nat) returns (end: nat, drop: bool)
    requires i < |ms| && ms[i].role == Assistant && ms[i].calls != []
    ensures end == ResultsEnd(ms, i + 1)
    ensures drop == ((forall k | 0 <= k < |ms[i].calls| :: ms[i].calls[k].name in rule.tools) && Answered(rule, ms, i + 1, end, CallIds(ms[i])) == Some({}))
  {
    hide Body;
    var calls := ms[i].calls;
    drop := true;
    var open: set<string> := {};
    for k := 0 to |calls|
      invariant open == Ids(calls, k) && drop == forall m | 0 <= m < k :: calls[m].name in rule.tools
    {
      if calls[k].name !in rule.tools {
        drop := false;
      }
      open := open + {calls[k].id};
    }
    ghost var named := drop;
    ghost var last := ResultsEnd(ms, i + 1);
    end := i + 1;
    while end < |ms| && ms[end].role == Tool
      invariant i + 1 <= end <= last && last == ResultsEnd(ms, end)
      invariant drop ==> named && Answered(rule, ms, end, last, open) == Answered(rule, ms, i + 1, last, CallIds(ms[i]))
      invariant !drop ==> !named || Answered(rule, ms, i + 1, last, CallIds(ms[i])) == None
    {
      if ms[end].toolCallId !in open || !rule.good(Body(ms[end])) {
        drop := false;
      }
      open := open - {ms[end].toolCallId};
      end := end + 1;
    }
    drop := drop && open == {};
  }

  /** `projectToolHistory` and `projectDraftHistory`. */
  method ProjectHistory(rule: Rule, ms: seq<Message>) returns (out: seq<Message>)
    ensures out == Project(rule, ms)
  {
    hide Answered, ResultsEnd;
    out := [];
    var i := 0;
    while i < |ms|
      invariant 0 <= i <= |ms| && out + ProjectFrom(rule, ms, i) == Project(rule, ms)
    {
      var m := ms[i];
      if m.role != Assistant || m.calls == [] {
        AppendOne(out, m, ProjectFrom(rule, ms, i + 1));
        out := out + [m];
        i := i + 1;
      } else {
        var end, drop := ReadResults(rule, ms, i);
        if drop && (end < |ms| || rule.dropLast) {
          i := end;
        } else {
          AppendOne(out, m, ProjectFrom(rule, ms, i + 1));
          out := out + [m];
          i := i + 1;
        }
      }
    }
  }

  lemma AppendOne(out: seq<Message>, m: Message, rest: seq<Message>)
    ensures out + ([m] + rest) == (out + [m]) + rest
  {
  }

  // ----- the authoring history

  const FEEDBACK := "vidlens_last_feedback"
  const MUTATIONS := "|begin_article|save_article_sections|repair_article_plan|repair_article_sections|patch_article_draft|update_article_limitations|record_observation|"
  const OBSERVE := "record_observation"
  const READ_FIELDS := "read_candidate_fields"

  /** The name occurs in the list between its bars. */
  predicate IsMutation(name: string) {
    FirstFrom(MUTATIONS, "|" + name + "|", 0) >= 0
  }

  /** A single call and its result. */
  predicate IsPair(ms: seq<Message>, i: nat)
    requires i < |ms|
  {
    && ms[i].role == Assistant && |ms[i].calls| == 1
    && i + 1 < |ms| && ms[i + 1].role == Tool && ms[i + 1].toolCallId == ms[i].calls[0].id
  }

  predicate ReadsFields(ms: seq<Message>, i: nat)
    requires i < |ms|
  {
    IsPair(ms, i) && ms[i].calls[0].name == READ_FIELDS
  }

  /** `dropCandidateFieldReads`, from position `i` on. */
  function DropReadsFrom(ms: seq<Message>, i: nat): seq<Message>
    requires i <= |ms|
    decreases |ms| - i
  {
    if i == |ms| then []
    else if ReadsFields(ms, i) then DropReadsFrom(ms, i + 2)
    else [ms[i]] + DropReadsFrom(ms, i + 1)
  }

  function DropReads(ms: seq<Message>): seq<Message> {
    DropReadsFrom(ms, 0)
  }

  /** A mutation whose result is an object. */
  predicate IsRecorded(c: Codec, ms: seq<Message>, i: nat)
    requires i < |ms|
  {
    ms[i].name != FEEDBACK && IsPair(ms, i) && IsMutation(ms[i].calls[0].name) && c.parse(Body(ms[i + 1])) != Bad
  }

  predicate IsFeedback(c: Codec, m: Message) {
    m.name == FEEDBACK && c.parse(m.content) != Bad
  }

  datatype Progress = Progress(out: seq<Message>, last: map<string, string>)

  const REPORTED := ["error", "next_action", "correct_arguments_and_try_again"]

  function ErrorOf(value: map<string, string>): map<string, string> {
    map k | k in value && k in REPORTED :: value[k]
  }

  /** Any mutation but an observation supersedes the candidate fields read so far and the last error. */
  function Record(s: Progress, tool: string, value: map<string, string>): Progress {
    var s := if tool == OBSERVE then s else Progress(DropReads(s.out), map[]);
    if "error" in value && value["error"] != "null" then s.(last := ErrorOf(value)) else s
  }

  function FieldsOf(p: Parsed): map<string, string> {
    if p.Fields? then p.fields else map[]
  }

  /** What a decoded object leaves of the last feedback: `null` clears it, fields are merged in. */
  function Merged(last: map<string, string>, p: Parsed): map<string, string> {
    match p
    case Bad => last
    case Null => map[]
    case Fields(fields) => last + fields
  }

  function AuthorFrom(c: Codec, ms: seq<Message>, i: nat, s: Progress): Progress
    requires i <= |ms|
    decreases |ms| - i
  {
    if i == |ms| then s
    else if IsFeedback(c, ms[i]) then AuthorFrom(c, ms, i + 1, s.(last := Merged(s.last, c.parse(ms[i].content))))
    else if IsRecorded(c, ms, i) then AuthorFrom(c, ms, i + 2, Record(s, ms[i].calls[0].name, FieldsOf(c.parse(Body(ms[i + 1])))))
    else AuthorFrom(c, ms, i + 1, s.(out := s.out + [ms[i]]))
  }

  function FeedbackMessage(c: Codec, last: map<string, string>): Message {
    Message(Other, FEEDBACK, [], "", c.encode(last), [])
  }

  function Finish(c: Codec, s: Progress): seq<Message> {
    if s.last == map[] then s.out else s.out + [FeedbackMessage(c, s.last)]
  }

  function Author(c: Codec, ms: seq<Message>): seq<Message> {
    Finish(c, AuthorFrom(c, ms, 0, Progress([], map[])))
  }

  method DropCandidateFieldReads(ms: seq<Message>) returns (out: seq<Message>)
    ensures out == DropReads(ms)
  {
    out := [];
    var i := 0;
    while i < |ms|
      invariant 0 <= i <= |ms| && out + DropReadsFrom(ms, i) == DropReads(ms)
    {
      ghost var rest, before := DropReadsFrom(ms, i), out;
      if ReadsFields(ms, i) {
        i := i + 2;
      } else {
        out := out + [ms[i]];
        i := i + 1;
      }
      assert before + rest == out + DropReadsFrom(ms, i);
    }
  }

  method ReadError(value: map<string, string>) returns (last: map<string, string>)
    ensures last == ErrorOf(value)
  {
    last := map[];
    for k := 0 to |REPORTED|
      invariant last == map f | f in value && f in REPORTED[..k] :: value[f]
    {
      if REPORTED[k] in value {
        last := last[REPORTED[k] := value[REPORTED[k]]];
      }
    }
    assert REPORTED[..|REPORTED|] == REPORTED;
  }

  /** `projectAuthoringHistory`. */
  method ProjectAuthoringHistory(c: Codec, ms: seq<Message>) returns (out: seq<Message>)
    ensures out == Author(c, ms)
  {
    hide IsMutation, DropReads, Body, ErrorOf;
    out := [];
    var last: map<string, string> := map[];
    var i := 0;
    while i < |ms|
      invariant 0 <= i <= |ms| && AuthorFrom(c, ms, i, Progress(out, last)) == AuthorFrom(c, ms, 0, Progress([], map[]))
    {
      var m := ms[i];
      if m.name == FEEDBACK {
        var p := c.parse(m.content);
        if p == Bad {
          out := out + [m];
        } else {
          last := Merged(last, p);
        }
        i := i + 1;
      } else if !IsPair(ms, i) || !IsMutation(m.calls[0].name) {
        out := out + [m];
        i := i + 1;
      } else {
        var p := c.parse(Body(ms[i + 1]));
        if p == Bad {
          out := out + [m];
          i := i + 1;
        } else {
          var tool, value := m.calls[0].name, FieldsOf(p);
          if tool != OBSERVE {
            last := map[];
            out := DropCandidateFieldReads(out);
          }
          if "error" in value && value["error"] != "null" {
            last := ReadError(value);
          }
          i := i + 2;
        }
      }
    }
    if last != map[] {
      out := out + [FeedbackMessage(c, last)];
    }
  }
}
