/** The durable state machine that writes, reviews and publishes one article (reviewed contract,
    revision V13; internal/investigator/article_loop.go, article_loop_input.go,
    article_loop_convergence.go, article_loop_evidence.go, article_loop_sufficiency.go).

    A worker keeps its state in memory only between durable writes. `Course` is what a worker that
    boots on a given store intends to write up to its next checkpoint; `Step` performs the first of
    these writes that is still missing. Since a crash loses nothing but memory, a run with arbitrary
    crashes is a sequence of steps. */
module ArticleLoop {
  import opened Lists
  import opened Wrappers
  import opened ReviewMaterial
  import opened ReviewWork
  import CoverageWork
  import ReviewPlans
  import ReviewScopes
  import ReviewTasks
  import Text

  // ----- what is stored

  /** An article stands for its own content hash. Its outline is what planning looks at. */
  datatype Article = Article(outline: ReviewMaterial.Article, body: string)
  datatype Draft = Draft(version: nat, article: Article)
  datatype Issue = Issue(id: string, blocking: bool)

  datatype Mode = Source | Author | Review(scope: Scope)

  /** One logical model call, with the originals delivered to it. */
  datatype Call = Call(slot: nat, mode: Mode, sources: seq<string>)

  datatype Save = Save(expected: nat, edit: string, finish: bool)
  datatype Patch = Patch(expected: nat, edit: string, finish: bool)

  /** The immutable outcome of one accepted write; a no-op keeps the version. */
  datatype Receipt = Receipt(args: Save, draft: Draft, noop: bool, rejected: bool)

  datatype Key = Accepted(candidate: Article, scopeId: string, calls: nat) | Reused(candidate: Article, scopeId: string)

  datatype Verdict = Covered | Missing | Unclear
  datatype Decision = Decision(questionId: string, verdict: Verdict)

  /** A point that must be covered, before it is given an identity. */
  datatype Topic = Topic(text: string, evidenceRefs: seq<string>)

  /** What a review looked at: the digest covers the whole scope. */
  datatype Material = Material(judged: string, scope: Scope)

  /** `asked` are the questions that the review had to decide, `questions` those that it raised. */
  datatype Record = Record(
    candidate: Article, evidence: string, scope: Scope, asked: seq<string>, issues: seq<Issue>,
    questions: seq<CoverageWork.Question>, decisions: seq<Decision>, material: Material, reusedFrom: Option<Key>)
  datatype Approval = Approval(candidate: Article, evidence: string, draftVersion: nat, keys: seq<Key>)

  /** What a count of invalid replies is kept for. */
  datatype Protocol = SourceProtocol | ReviewProtocol(candidate: Option<Article>, scopeId: string)

  datatype Loop = Loop(
    pending: Option<Call>, candidate: Option<Article>, draftVersion: nat, scopes: seq<Scope>, plan: seq<Scope>,
    questions: seq<CoverageWork.Question>, keys: seq<Key>,
    issues: seq<Issue>, blocked: map<Article, seq<Issue>>, challenged: Option<Article>, disputes: set<Article>,
    cache: map<Material, Key>, planned: set<string>, read: set<string>, failures: map<Protocol, nat>,
    noProgress: nat, repairActions: nat)

  datatype Store = Store(
    calls: nat, loop: Loop, inputs: map<nat, Call>, replies: map<nat, Reply>, turns: map<nat, Loop>,
    plans: map<nat, Save>, receipts: map<nat, Receipt>, current: Draft,
    sourcePlans: map<seq<string>, seq<CoverageWork.Question>>,
    candidates: set<Article>, reviews: map<Key, Record>, approvals: map<Article, Approval>, published: Option<Article>)

  // ----- the model and the parts of the engine that are parameters here

  datatype Reply =
    | SourcePlan(topics: seq<Topic>)            // a complete inventory of the delivered originals
    | SaveSections(save: Save)
    | ReviseBlocks(patch: Patch)
    | Finish(expected: nat)
    | Challenge(expected: nat, answered: bool)  // answered: every finding is disputed with evidence
    | Reviewed(report: Report)                  // a review report that is valid apart from its coverage
    | Stop
    | Other                                     // reads, and everything malformed or out of place
    | Truncated
    | TooLarge

  datatype Report = Report(issues: seq<Issue>, topics: seq<Topic>, decisions: seq<Decision>)
  datatype Edit = Refused | Edited(article: Article, rejected: bool)

  /** `replies` is the model. The other functions are the deterministic parts modelled elsewhere or
      left open: source batching, the workspace of an author call, the inputs of planning and
      planning itself, the refreshed work and its context, the draft editor, validation, the digests
      of evidence and of what a review looks at, and the stop rules. */
  datatype Env = Env(
    transcript: seq<string>, text: string -> string, budget: nat, noProgressLimit: nat, replies: nat -> Reply,
    batch: set<string> -> Option<seq<string>>, select: (Loop, Draft) -> seq<string>,
    challenged: Loop -> seq<string>, prose: Article -> ((seq<string>, seq<string>) -> nat), cost: string -> nat, hash: Scope -> string,
    plan: (Loop, Article) -> Option<seq<Scope>>, ready: (Loop, Article) -> Option<Backlog>,
    split: (Loop, Article, Scope) -> Option<Backlog>, dress: (Loop, Article, Scope) -> Scope,
    edit: (Article, Save) -> Edit, expand: (Article, Patch) -> Option<Save>, valid: Article -> bool,
    evidence: Article -> string, judged: (Article, Scope) -> string,
    reserve: (Loop, Article, seq<Scope>) -> nat, stalls: (Loop, seq<Issue>) -> bool)

  /** What planning reads. */
  function ReadingOf(env: Env, l: Loop, h: Article): Reading {
    Reading(h.outline, env.transcript, env.challenged(l), env.prose(h), env.cost, env.hash)
  }

  function SurveyOf(env: Env, l: Loop, h: Article): CoverageWork.Survey {
    CoverageWork.Survey(l.questions, seq(|env.transcript|, i requires 0 <= i < |env.transcript| =>
      CoverageWork.Original(env.transcript[i], env.text(env.transcript[i]))), ReviewScopes.SectionIds(h.outline), env.hash)
  }

  const REVISIONS := 48
  const PROTOCOL_LIMIT := 2
  const REPAIR_LIMIT := 3

  // ----- durable writes

  datatype Write =
    | PutInput(call: Call) | PutReply(slot: nat, reply: Reply) | PutSources(sources: seq<string>, questions: seq<CoverageWork.Question>)
    | PutPlan(slot: nat, save: Save) | PutDraft(slot: nat, receipt: Receipt) | PutCandidate(candidate: Article)
    | PutReview(key: Key, record: Record) | PutApproval(approval: Approval)
    | PutTurn(slot: nat, loop: Loop) | PutCheckpoint(calls: nat, loop: Loop) | PutPublished(article: Article)

  /** The write has already happened. A checkpoint is the only value that is replaced. */
  predicate Has(s: Store, w: Write) {
    match w
    case PutInput(call) => call.slot in s.inputs && s.inputs[call.slot] == call
    case PutReply(slot, reply) => slot in s.replies && s.replies[slot] == reply
    case PutSources(sources, questions) => sources in s.sourcePlans && s.sourcePlans[sources] == questions
    case PutPlan(slot, save) => slot in s.plans && s.plans[slot] == save
    case PutDraft(slot, receipt) => slot in s.receipts && s.receipts[slot] == receipt
    case PutCandidate(a) => a in s.candidates
    case PutReview(key, record) => key in s.reviews && s.reviews[key] == record
    case PutApproval(approval) => approval.candidate in s.approvals && s.approvals[approval.candidate] == approval
    case PutTurn(slot, loop) => slot in s.turns && s.turns[slot] == loop
    case PutCheckpoint(_, _) => false
    case PutPublished(a) => s.published == Some(a)
  }

  /** The key is taken by another value: an immutable operation refuses to be replaced. */
  predicate Conflicts(s: Store, w: Write) {
    match w
    case PutInput(call) => call.slot in s.inputs && s.inputs[call.slot] != call
    case PutReply(slot, reply) => slot in s.replies && s.replies[slot] != reply
    case PutPlan(slot, save) => slot in s.plans && s.plans[slot] != save
    case PutDraft(slot, receipt) => slot in s.receipts && s.receipts[slot] != receipt
    case PutSources(sources, questions) => sources in s.sourcePlans && s.sourcePlans[sources] != questions
    case PutReview(key, record) => key in s.reviews && s.reviews[key] != record
    case PutApproval(approval) => approval.candidate in s.approvals && s.approvals[approval.candidate] != approval
    case PutTurn(slot, loop) => slot in s.turns && s.turns[slot] != loop
    case PutPublished(_) => s.published.Some?
    case _ => false
  }

  function Do(s: Store, w: Write): Store {
    match w
    case PutInput(call) => s.(inputs := s.inputs[call.slot := call])
    case PutReply(slot, reply) => s.(replies := s.replies[slot := reply])
    case PutSources(sources, questions) => s.(sourcePlans := s.sourcePlans[sources := questions])
    case PutPlan(slot, save) => s.(plans := s.plans[slot := save])
    case PutDraft(slot, receipt) => s.(receipts := s.receipts[slot := receipt], current := receipt.draft)
    case PutCandidate(a) => s.(candidates := s.candidates + {a})
    case PutReview(key, record) => s.(reviews := s.reviews[key := record])
    case PutApproval(approval) => s.(approvals := s.approvals[approval.candidate := approval])
    case PutTurn(slot, loop) => s.(turns := s.turns[slot := loop])
    case PutCheckpoint(calls, loop) => s.(calls := calls, loop := loop)
    case PutPublished(a) => s.(published := Some(a))
  }

  // ----- reviewing

  predicate IsBlocking(issues: seq<Issue>) {
    exists i | i in issues :: i.blocking
  }

  function BlockingOnly(issues: seq<Issue>): seq<Issue> {
    if issues == [] then []
    else
      var front, last := BlockingOnly(issues[..|issues| - 1]), issues[|issues| - 1];
      if last.blocking then front + [last] else front
  }

  function Without(scopes: seq<Scope>, id: string): seq<Scope> {
    if scopes == [] then []
    else
      var front, last := Without(scopes[..|scopes| - 1], id), scopes[|scopes| - 1];
      if last.id == id then front else front + [last]
  }

  function Counted(failures: map<Protocol, nat>, key: Protocol): map<Protocol, nat> {
    failures[key := 1 + if key in failures then failures[key] else 0]
  }

  predicate Exceeds(failures: map<Protocol, nat>, key: Protocol) {
    key in failures && failures[key] >= PROTOCOL_LIMIT
  }

  // ----- coverage

  /** Stands for the digest of a question's origin and position; source plans and reviews have
      different origins. */
  function QuestionId(planned: bool, calls: nat, i: nat): string {
    (if planned then "p" else "r") + Text.Decimal(calls) + "." + Text.Decimal(i)
  }

  function Raised(planned: bool, calls: nat, topics: seq<Topic>): (out: seq<CoverageWork.Question>)
    ensures |out| == |topics|
  {
    seq(|topics|, i requires 0 <= i < |topics| => CoverageWork.Question(QuestionId(planned, calls, i), topics[i].text, topics[i].evidenceRefs))
  }

  /** A question that is known already is not added again. */
  function Merged(questions: seq<CoverageWork.Question>, more: seq<CoverageWork.Question>): seq<CoverageWork.Question> {
    if more == [] then questions
    else
      var front, q := Merged(questions, more[..|more| - 1]), more[|more| - 1];
      if exists p | p in front :: p.id == q.id then front else front + [q]
  }

  function DecisionIds(decisions: seq<Decision>): (ids: seq<string>)
    ensures |ids| == |decisions|
  {
    seq(|decisions|, i requires 0 <= i < |decisions| => decisions[i].questionId)
  }

  /** `ValidateArticleCoverage`: a local review decides nothing, for it does not see the whole article;
      a full one decides each pending question, and raises none. */
  predicate IsComplete(scope: Scope, asked: seq<string>, raised: nat, decisions: seq<Decision>) {
    if !scope.global then decisions == []
    else
      && raised == 0 && |decisions| == |asked| && (forall d | d in decisions :: d.questionId in asked && d.verdict != Unclear)
      && forall i, j | 0 <= i < j < |decisions| :: decisions[i].questionId != decisions[j].questionId
  }

  /** A question that is found missing is a blocking finding. */
  function Omissions(decisions: seq<Decision>): seq<Issue> {
    if decisions == [] then []
    else
      var front, last := Omissions(decisions[..|decisions| - 1]), decisions[|decisions| - 1];
      if last.verdict == Missing then front + [Issue("coverage:" + last.questionId, true)] else front
  }

  /** `loopReferenceQuestions`. */
  function Asked(env: Env, l: Loop, h: Article, scope: Scope): seq<string> {
    ReviewTasks.QuestionIds(CoverageWork.Questions(SurveyOf(env, l, h), scope))
  }

  /** The result of acting on a reply: further durable writes, the new loop state, whether the
      obligations moved, and whether the run goes on. */
  datatype Action = Action(writes: seq<Write>, loop: Loop, progress: bool, ok: bool)

  function Idle(l: Loop): Action {
    Action([], l, false, true)
  }

  function Halted(writes: seq<Write>, l: Loop): Action {
    Action(writes, l, false, false)
  }

  function RecordOf(env: Env, s: Store, l: Loop, h: Article, scope: Scope, report: Report): Record {
    Record(h, env.evidence(h), scope, Asked(env, l, h, scope), report.issues + Omissions(report.decisions),
           Raised(false, s.calls, report.topics), report.decisions, Material(env.judged(h, scope), scope), None)
  }

  function KeysWith(keys: seq<Key>, key: Key): seq<Key> {
    if key in keys then keys else keys + [key]
  }

  /** The loop once a review is filed: its task is done, its questions are known, its issues open. */
  function WithReview(l: Loop, key: Key, record: Record): Loop {
    l.(questions := Merged(l.questions, record.questions), keys := KeysWith(l.keys, key), issues := l.issues + record.issues,
       cache := if record.scope.global || IsBlocking(record.issues) then l.cache else l.cache[record.material := key],
       scopes := Without(l.scopes, record.scope.id))
  }

  /** `acceptLoopReview`. */
  function Accept(env: Env, s: Store, l: Loop, scope: Scope, report: Report): Action {
    if l.candidate.None? then Halted([], l)
    else
      var h := l.candidate.value;
      var key := Accepted(h, scope.id, s.calls);
      var record := RecordOf(env, s, l, h, scope, report);
      var saved := [PutReview(key, record)];
      var l1 := WithReview(l, key, record);
      var blocking := BlockingOnly(l1.issues);
      if l1.scopes != [] then Action(saved, l1, true, true)
      else if blocking != [] then
        if env.stalls(l1, blocking) then Halted(saved, l1)
        else
          Action(saved, l1.(challenged := None, repairActions := 0, blocked := l1.blocked[h := blocking], candidate := None, issues := blocking), true, true)
      else Action(saved + [PutApproval(Approval(h, env.evidence(h), l1.draftVersion, l1.keys))], l1, true, true)
  }

  // ----- freezing a candidate

  /** Reviews of unchanged material, rebound to the new candidate; the other scopes stay pending. */
  datatype Reuse = Reuse(writes: seq<Write>, keys: seq<Key>, issues: seq<Issue>, pending: seq<Scope>, ok: bool)

  function ReuseFirst(env: Env, s: Store, l: Loop, h: Article, scopes: seq<Scope>, n: nat): Reuse
    requires n <= |scopes|
  {
    if n == 0 then Reuse([], [], [], [], true)
    else
      var front, scope := ReuseFirst(env, s, l, h, scopes, n - 1), scopes[n - 1];
      var material := Material(env.judged(h, scope), scope);
      if !front.ok then front
      else if scope.global || material !in l.cache then front.(pending := front.pending + [scope])
      else
        var source := l.cache[material];
        if !source.Accepted? || source !in s.reviews || s.reviews[source].material != material || s.reviews[source].reusedFrom.Some?
          || IsBlocking(s.reviews[source].issues) then front.(ok := false)
        else
          var origin, key := s.reviews[source], Reused(h, scope.id);
          front.(writes := front.writes + [PutReview(key, origin.(candidate := h, evidence := env.evidence(h), reusedFrom := Some(source)))],
                 keys := KeysWith(front.keys, key),
                 issues := front.issues + origin.issues)
  }

  predicate AllIn(ids: seq<string>, known: set<string>) {
    forall id | id in ids :: id in known
  }

  /** `freezeLoopCandidate`. */
  function Freeze(env: Env, s: Store, l: Loop, expected: nat): Action {
    var h := s.current.article;
    if s.current.version != expected || !AllIn(env.transcript, l.read) || !env.valid(h) then Idle(l)
    else if h in l.blocked && l.blocked[h] != [] && l.challenged != Some(h) then Idle(l.(issues := l.blocked[h]))
    else if l.candidate == Some(h) && l.scopes != [] then Idle(l)
    else
      var l1 := l.(candidate := Some(h), draftVersion := s.current.version, keys := [], issues := []);
      var planned := env.plan(l1, h);
      if planned.None? then Halted([PutCandidate(h)], l1)
      else
        var r := ReuseFirst(env, s, l1, h, planned.value, |planned.value|);
        var l2 := l1.(scopes := r.pending, plan := planned.value, keys := r.keys, issues := r.issues);
        if !r.ok || s.calls + |r.pending| > env.budget then Halted([PutCandidate(h)] + r.writes, l2)
        else Action([PutCandidate(h)] + r.writes, l2, true, true)
  }

  // ----- writing

  datatype Written = Written(writes: seq<Write>, receipt: Option<Receipt>, ok: bool)

  /** `saveLoopSections` and `SaveArticleDraft`: a recorded receipt is replayed; otherwise the edit
      applies to the expected version or not at all. */
  function SaveDraft(env: Env, s: Store, slot: nat, save: Save): Written {
    if slot in s.receipts then
      if s.receipts[slot].args == save then Written([PutDraft(slot, s.receipts[slot])], Some(s.receipts[slot]), true) else Written([], None, false)
    else if s.current.version != save.expected then Written([], None, true)
    else
      match env.edit(s.current.article, save)
      case Refused => Written([], None, true)
      case Edited(article, rejected) =>
        var noop := article == s.current.article;
        if !noop && s.current.version >= REVISIONS then Written([], None, false)
        else
          var version := if noop then s.current.version else s.current.version + 1;
          var receipt := Receipt(save, Draft(version, article), noop, rejected);
          Written([PutDraft(slot, receipt)], Some(receipt), true)
  }

  /** The store once a receipt is durable. */
  function AfterDraft(s: Store, slot: nat, receipt: Receipt): Store {
    if slot in s.receipts then s else Do(s, PutDraft(slot, receipt))
  }

  /** A saved change withdraws the candidate; an accepted finish request freezes the new one. */
  function SaveAndFinish(env: Env, s: Store, l: Loop, slot: nat, save: Save): Action {
    var w := SaveDraft(env, s, slot, save);
    if !w.ok then Halted([], l)
    else if w.receipt.None? then Idle(l)
    else
      var receipt := w.receipt.value;
      var l1 := if receipt.noop then l else l.(challenged := None, candidate := None, scopes := [], keys := [], draftVersion := 0);
      if save.finish && !receipt.rejected then
        var s1 := AfterDraft(s, slot, receipt);
        var a := Freeze(env, s1, l1, s1.current.version);
        a.(writes := w.writes + a.writes, progress := !receipt.noop || a.progress)
      else Action(w.writes, l1, !receipt.noop, true)
  }

  /** `patchLoopBlocks`: the expansion is made once and kept, because the draft it was made from changes. */
  function Revise(env: Env, s: Store, l: Loop, slot: nat, patch: Patch): Action {
    var planned := if slot in s.plans then Some(s.plans[slot])
                   else if s.current.version != patch.expected then None
                   else env.expand(s.current.article, patch);
    if planned.None? then Idle(l)
    else
      var a := SaveAndFinish(env, s, l, slot, planned.value);
      a.(writes := [PutPlan(slot, planned.value)] + a.writes)
  }

  /** `challengeLoopReview`: one evidenced dispute per blocked candidate reopens its review. */
  function Dispute(env: Env, s: Store, l: Loop, expected: nat, answered: bool): Action {
    var h := s.current.article;
    if s.current.version != expected then Idle(l)
    else if h !in l.blocked || l.blocked[h] == [] || h in l.disputes || !answered then Idle(l)
    else Freeze(env, s, l.(disputes := l.disputes + {h}, challenged := Some(h)), expected)
  }

  // ----- one turn

  predicate CountsAsRepair(reply: Reply) {
    reply.SaveSections? || reply.ReviseBlocks? || reply.Finish? || reply.Challenge?
  }

  predicate IsAdmitted(env: Env, l: Loop, scope: Scope, reply: Reply) {
    && reply.Reviewed? && l.candidate.Some?
    && IsComplete(scope, Asked(env, l, l.candidate.value, scope), |reply.report.topics|, reply.report.decisions)
  }

  /** `applyLoopResponse`. */
  function Act(env: Env, s: Store, l: Loop, call: Call, reply: Reply): Action {
    match call.mode
    case Source =>
      if reply.SourcePlan? then
        var questions := Raised(true, s.calls, reply.topics);
        Action([PutSources(call.sources, questions)], l.(planned := l.planned + Elements(call.sources), questions := l.questions + questions), true, true)
      else Idle(l.(failures := Counted(l.failures, SourceProtocol)))
    case Review(scope) =>
      if IsAdmitted(env, l, scope, reply) then Accept(env, s, l, scope, reply.report)
      else Idle(l.(failures := Counted(l.failures, ReviewProtocol(l.candidate, scope.id))))
    case Author =>
      var l1 := if l.issues != [] && CountsAsRepair(reply) then l.(repairActions := l.repairActions + 1) else l;
      match reply
      case SaveSections(save) => SaveAndFinish(env, s, l1, call.slot, save)
      case ReviseBlocks(patch) => Revise(env, s, l1, call.slot, patch)
      case Finish(expected) => Freeze(env, s, l1, expected)
      case Challenge(expected, answered) => Dispute(env, s, l1, expected, answered)
      case Stop => Halted([], l1)
      case _ => Idle(l1)
  }

  /** `recoverLoopFailure`: a review that was cut off or did not fit is split, never approved. */
  function Recover(env: Env, s: Store, l: Loop, call: Call): Action {
    var l1 := l.(noProgress := l.noProgress + 1);
    match call.mode
    case Source => Halted([], l)
    case Author => Idle(l1)
    case Review(scope) =>
      var next := env.split(l, s.current.article, scope);
      if next.None? then Halted([], l1) else Idle(l1.(scopes := next.value.scopes, plan := next.value.plan))
  }

  function Turn(env: Env, s: Store, call: Call, reply: Reply): Action {
    var l := s.loop;
    if reply.Truncated? || reply.TooLarge? then
      var a := Recover(env, s, l, call);
      a.(loop := a.loop.(pending := None))
    else
      var evidence := exists id | id in call.sources :: id !in l.read;
      var a := Act(env, s, l.(read := l.read + Elements(call.sources)), call, reply);
      a.(loop := a.loop.(pending := None, noProgress := if a.progress || evidence then 0 else a.loop.noProgress + 1))
  }

  // ----- preparing a call

  datatype Prepared = Prepared(call: Call, loop: Loop)

  /** `prepareLoopCall`: sources first, then pending reviews, then writing. */
  function Prepare(env: Env, s: Store): Option<Prepared> {
    var l := s.loop;
    if !AllIn(env.transcript, l.planned) then
      var batch := env.batch(l.planned);
      if Exceeds(l.failures, SourceProtocol) || s.calls + 3 > env.budget || batch.None? then None
      else Some(Prepared(Call(s.calls, Source, batch.value), l))
    else if l.candidate.Some? && l.scopes != [] then
      var h := s.current.article;
      var work := env.ready(l, h);
      if work.None? || work.value.scopes == [] || Exceeds(l.failures, ReviewProtocol(l.candidate, work.value.scopes[0].id)) then None
      else
        var scope := env.dress(l, h, work.value.scopes[0]);
        var delivered := InOrder(env.transcript, Elements(scope.sourceIds) + Elements(scope.contextSourceIds));
        Some(Prepared(Call(s.calls, Review(scope), delivered), l.(scopes := work.value.scopes, plan := work.value.plan)))
    else if s.current.version >= REVISIONS || (l.issues != [] && l.repairActions >= REPAIR_LIMIT) then None
    else
      var planned := env.plan(l, s.current.article);
      if planned.None? || s.calls + 1 + Max(1, env.reserve(l, s.current.article, planned.value)) > env.budget then None
      else Some(Prepared(Call(s.calls, Author, env.select(l, s.current)), l.(plan := planned.value)))
  }

  function Max(a: nat, b: nat): nat { if a < b then b else a }

  // ----- the publication gate

  /** All questions of the run, wherever they were raised. */
  function AllQuestions(s: Store): set<CoverageWork.Question> {
    (set key, i | key in s.reviews && 0 <= i < |s.reviews[key].questions| :: s.reviews[key].questions[i])
    + (set sources, i | sources in s.sourcePlans && 0 <= i < |s.sourcePlans[sources]| :: s.sourcePlans[sources][i])
  }

  /** What the full-article reviews among the first `n` decided. */
  function DecidedFirst(s: Store, keys: seq<Key>, n: nat): seq<Decision>
    requires n <= |keys|
  {
    if n == 0 then []
    else
      var front, key := DecidedFirst(s, keys, n - 1), keys[n - 1];
      if key in s.reviews && s.reviews[key].scope.global then front + s.reviews[key].decisions else front
  }

  function Decided(s: Store, keys: seq<Key>): seq<Decision> {
    DecidedFirst(s, keys, |keys|)
  }

  /** A rebound review is that of another candidate with the same scope and material, and says the same. */
  predicate IsRebinding(s: Store, r: Record, source: Key) {
    && !r.scope.global && source in s.reviews
    && var o := s.reviews[source];
      && o.reusedFrom.None? && o.scope == r.scope && o.material == r.material && o.issues == r.issues && o.questions == r.questions && o.decisions == r.decisions
  }

  predicate RecordPasses(env: Env, s: Store, h: Article, key: Key) {
    && key in s.reviews
    && var r := s.reviews[key];
      && r.candidate == h && r.evidence == env.evidence(h) && r.material == Material(env.judged(h, r.scope), r.scope)
      && IsComplete(r.scope, r.asked, |r.questions|, r.decisions) && !IsBlocking(r.issues)
      && (r.reusedFrom.Some? ==> IsRebinding(s, r, r.reusedFrom.value))
  }

  /** Each question of the run is known to the checkpoint and decided once, as covered. */
  predicate CoversQuestions(s: Store, keys: seq<Key>) {
    var all, decided := AllQuestions(s), Decided(s, keys);
    && (forall p, q | p in all && q in all :: p.id == q.id ==> p == q)
    && |s.loop.questions| == |all| && (forall q | q in s.loop.questions :: q in all)
    && |decided| == |all| && (forall d | d in decided :: d.verdict == Covered && exists q | q in all :: q.id == d.questionId)
    && forall i, j | 0 <= i < j < |decided| :: decided[i].questionId != decided[j].questionId
  }

  predicate JudgesRelations(scope: Scope) {
    scope.global && (!scope.coverageBatch || scope.coverageQuestionIds == [] || scope.fullRelations)
  }

  /** `verifyArticleLoopPublication`, inside the publishing transaction. */
  predicate Gate(env: Env, s: Store, h: Article) {
    && h in s.candidates && h in s.approvals
    && var ap := s.approvals[h];
      && ap.candidate == h && ap.evidence == env.evidence(h) && ap.keys != [] && s.current == Draft(ap.draftVersion, h)
      && (forall i, j | 0 <= i < j < |ap.keys| :: ap.keys[i] != ap.keys[j])
      && (forall key | key in ap.keys :: RecordPasses(env, s, h, key))
      && (exists key | key in ap.keys :: key in s.reviews && JudgesRelations(s.reviews[key].scope)) && CoversQuestions(s, ap.keys)
      && (forall id | id in ReviewScopes.SectionIds(h.outline) :: exists key | key in ap.keys :: key in s.reviews && id in s.reviews[key].scope.sectionIds)
      && (forall id | id in env.transcript :: exists key | key in ap.keys :: key in s.reviews && id in s.reviews[key].scope.sourceIds)
      && (forall id | id in ReviewPlans.ArticleFrames(h.outline) :: exists key | key in ap.keys :: key in s.reviews && id in s.reviews[key].scope.frameIds)
  }

  // ----- the worker

  datatype Course = Course(writes: seq<Write>, ok: bool)

  function ReplyOf(env: Env, s: Store, slot: nat): Reply {
    if slot in s.replies then s.replies[slot] else env.replies(slot)
  }

  /** All durable writes between two checkpoints, including those already made. */
  function Intended(env: Env, s: Store): Course {
    var l := s.loop;
    if s.published.Some? then Course([], false)
    else if l.pending.None? then
      if l.candidate.Some? && l.candidate.value in s.approvals then
        if Gate(env, s, l.candidate.value) then Course([PutPublished(l.candidate.value)], true) else Course([], false)
      else if s.calls >= env.budget || l.noProgress >= env.noProgressLimit then Course([], false)
      else
        match Prepare(env, s)
        case None => Course([], false)
        case Some(p) => Course([PutInput(p.call), PutCheckpoint(s.calls + 1, p.loop.(pending := Some(p.call)))], true)
    else
      var call := l.pending.value;
      if call.slot in s.turns then Course([PutCheckpoint(s.calls, s.turns[call.slot])], true)
      else
        var reply := ReplyOf(env, s, call.slot);
        var a := Turn(env, s, call, reply);
        if !a.ok then Course([PutReply(call.slot, reply)] + a.writes, false)
        else Course([PutReply(call.slot, reply)] + a.writes + [PutTurn(call.slot, a.loop), PutCheckpoint(s.calls, a.loop)], true)
  }
}
