/**
 Everything outside the coordinator: the tools and the state of the world they change, the
 verification gate, the outcome resolvers and the fault injector.

 Each answer the environment gives is a function of how many it gave before (the clock).
 A statement over every Env therefore covers every behaviour of the environment, changing
 and contradictory answers included, while the coordinator stays a function of its inputs.
 */
module Environment {
  import opened Prelude
  import opened Sagas
  import opened Journal

  /** How one tool call behaves; `applied` says that it took effect although it did not report success. */
  datatype CallChoice = Succeed | Fail(applied: bool) | Raise(applied: bool)

  datatype Gate = Admit | Deny | GateError

  /** What a resolver answers, depending on the truth of the matter, or an exception. */
  datatype ResolverChoice = Answers(ifApplied: Value, ifNot: Value) | Broken

  /** The environment's answers at one instant. Each interaction reads the one field that concerns it. */
  datatype Choice = Choice(
    crash: bool, gate: Gate, preflight: bool, call: CallChoice, undoCall: CallChoice, resolver: ResolverChoice)

  datatype Env<!W> = Env(
    act: (ActionPayload, W) -> Option<W>,   // what a forward tool call does, None when it is refused
    undo: (ActionPayload, W) -> Option<W>,  // what a compensation tool call does
    refusalRaises: bool,                    // a refused forward call raises instead of reporting failure
    hasResolver: bool,                      // the sandbox offers resolve_effect and resolve_compensation
    hasReplay: bool,                        // the sandbox offers execute_idempotent
    choice: nat -> Choice)

  /**
   One saga together with its surroundings: the durable ledger, the record in `active_sagas`
   (None after the process died), the world, the clock, and two history variables counting
   per step id how often the action and its compensation took effect.
   */
  datatype Sys<W> = Sys(
    ledger: Ledger,
    saga: Option<SagaTransaction>,
    world: W,
    clock: nat,
    runs: multiset<string>,
    undos: multiset<string>)

  function Tick<W>(s: Sys<W>): Sys<W> {
    s.(clock := s.clock + 1)
  }

  /** Whether the fault injector stops the process at this checkpoint. */
  predicate CrashesHere<W>(env: Env<W>, s: Sys<W>) {
    env.choice(s.clock).crash
  }

  /** The effect with this id is currently in force. */
  predicate InForce<W>(s: Sys<W>, stepId: string) {
    s.runs[stepId] > s.undos[stepId]
  }

  // ── Tool calls ────────────────────────────────────────────────────

  datatype Reply = Succeeded | Refused | Raised

  function ReplyOf<W>(c: CallChoice, target: Option<W>, refusalRaises: bool): Reply {
    match c
    case Succeed => if target.Some? then Succeeded else if refusalRaises then Raised else Refused
    case Fail(_) => Refused
    case Raise(_) => Raised
  }

  predicate TakesEffect<W>(c: CallChoice, target: Option<W>) {
    target.Some? && (c.Succeed? || (c.Fail? && c.applied) || (c.Raise? && c.applied))
  }

  datatype Answer<W> = Answer(reply: Reply, s: Sys<W>)

  /** `sandbox.execute`. */
  function Execute<W>(env: Env<W>, s: Sys<W>, stepId: string, action: ActionPayload): Answer<W> {
    var c, target := env.choice(s.clock).call, env.act(action, s.world);
    Answer(ReplyOf(c, target, env.refusalRaises),
           if TakesEffect(c, target)
           then Tick(s).(world := target.value, runs := s.runs + multiset{stepId})
           else Tick(s))
  }

  /** `sandbox.execute_compensation`, which turns the tools' refusals into False. */
  function ExecuteCompensation<W>(env: Env<W>, s: Sys<W>, stepId: string, compensation: ActionPayload): Answer<W> {
    var c, target := env.choice(s.clock).undoCall, env.undo(compensation, s.world);
    Answer(ReplyOf(c, target, false),
           if TakesEffect(c, target)
           then Tick(s).(world := target.value, undos := s.undos + multiset{stepId})
           else Tick(s))
  }

  // ── Resolution of interrupted calls ───────────────────────────────

  datatype Resolution = SaysApplied | SaysNotApplied | SaysUnknown | ResolverRaised

  function UpperChar(c: char): char {
    if 'a' <= c <= 'z' then c - 'a' + 'A' else c
  }

  function Upper(s: string): string {
    seq(|s|, i requires 0 <= i < |s| => UpperChar(s[i]))
  }

  /** `_normalise_resolution`. */
  function NormaliseResolution(value: Value): Resolution {
    match value
    case Flag(b) => if b then SaysApplied else SaysNotApplied
    case Text(t) =>
      if Upper(t) == "APPLIED" then SaysApplied
      else if Upper(t) == "NOT_APPLIED" then SaysNotApplied
      else SaysUnknown
    case _ => SaysUnknown
  }

  function ResolverReply(c: ResolverChoice, truth: bool): Resolution {
    match c
    case Answers(ifApplied, ifNot) => NormaliseResolution(if truth then ifApplied else ifNot)
    case Broken => ResolverRaised
  }

  // What the answers mean, apart from how the program reads them.

  /** The text is this word in any mixture of capital and small letters. */
  predicate Spells(t: string, word: string) {
    |t| == |word| && forall i | 0 <= i < |t| :: t[i] == word[i] || ('A' <= word[i] <= 'Z' && t[i] == SmallLetter(word[i]))
  }

  function SmallLetter(c: char): char
    requires 'A' <= c <= 'Z'
  {
    "abcdefghijklmnopqrstuvwxyz"[c as int - 'A' as int]
  }

  predicate MeansApplied(value: Value) {
    value == Flag(true) || (value.Text? && Spells(value.text, "APPLIED"))
  }

  predicate MeansNotApplied(value: Value) {
    value == Flag(false) || (value.Text? && Spells(value.text, "NOT_APPLIED"))
  }

  /** The program reads every answer as what it means, and everything else as no answer. */
  lemma AnswersAreUnderstood(value: Value)
    ensures NormaliseResolution(value) == SaysApplied <==> MeansApplied(value)
    ensures NormaliseResolution(value) == SaysNotApplied <==> MeansNotApplied(value)
    ensures NormaliseResolution(value) in {SaysApplied, SaysNotApplied, SaysUnknown}
  {
    if value.Text? {
      SpellsUpper(value.text, "APPLIED");
      SpellsUpper(value.text, "NOT_APPLIED");
    }
  }

  lemma SpellsUpper(t: string, word: string)
    requires forall i | 0 <= i < |word| :: 'A' <= word[i] <= 'Z' || word[i] == '_'
    ensures Spells(t, word) <==> Upper(t) == word
  {
    forall c: char, d: char | 'A' <= d <= 'Z' || d == '_'
      ensures UpperChar(c) == d <==> c == d || ('A' <= d <= 'Z' && c == SmallLetter(d))
    {
      LetterUpper(c, d);
    }
    if |t| == |word| {
      assert Upper(t) == word <==> forall i | 0 <= i < |t| :: Upper(t)[i] == word[i];
    }
  }

  lemma LetterUpper(c: char, d: char)
    requires 'A' <= d <= 'Z' || d == '_'
    ensures UpperChar(c) == d <==> c == d || ('A' <= d <= 'Z' && c == SmallLetter(d))
  {
    if 'A' <= d <= 'Z' {
      assert SmallLetter(d) == d - 'A' + 'a' by { SmallLetterIs(d); }
    }
  }

  lemma SmallLetterIs(d: char)
    requires 'A' <= d <= 'Z'
    ensures SmallLetter(d) == d - 'A' + 'a'
  {
    var letters := "abcdefghijklmnopqrstuvwxyz";
    assert forall k | 0 <= k < 26 :: letters[k] as int == 'a' as int + k;
  }

  datatype Resolved<W> = Resolved(verdict: Resolution, s: Sys<W>)

  /**
   `_resolve_forward_effect`: a published key proves the effect; otherwise ask the resolver;
   otherwise repeat the call on an idempotent receiver, which does nothing when the effect is
   in force; otherwise the outcome is unknown.
   */
  function ResolveForwardEffect<W>(env: Env<W>, s: Sys<W>, e: Entry): Resolved<W> {
    if AlreadyCommitted(s.ledger, e.idempotencyKey) then
      Resolved(SaysApplied, s)
    else if env.hasResolver then
      Resolved(ResolverReply(env.choice(s.clock).resolver, InForce(s, e.stepId)), Tick(s))
    else if Keyed(e.idempotencyKey) && env.hasReplay then
      ReplayCall(env, s, e)
    else
      Resolved(SaysUnknown, s)
  }

  /** `execute_idempotent`, and what the coordinator concludes from its answer. */
  function ReplayCall<W>(env: Env<W>, s: Sys<W>, e: Entry): Resolved<W> {
    var a := if InForce(s, e.stepId)
             then Answer(ReplyOf(env.choice(s.clock).call, Some(s.world), env.refusalRaises), Tick(s))
             else Execute(env, s, e.stepId, e.action);
    Resolved(match a.reply
             case Succeeded => SaysApplied
             case Refused => SaysUnknown
             case Raised => ResolverRaised,
             a.s)
  }

  /** `_resolve_compensation`. */
  function ResolveCompensation<W>(env: Env<W>, s: Sys<W>, e: Entry): Resolved<W> {
    if env.hasResolver then
      Resolved(ResolverReply(env.choice(s.clock).resolver, !InForce(s, e.stepId)), Tick(s))
    else
      Resolved(SaysUnknown, s)
  }

  // ── Hypotheses about the environment ──────────────────────────────

  /** Undoing right after doing restores the world, wherever the action goes through at all. */
  ghost predicate Invertible<W(!new)>(env: Env<W>, action: ActionPayload, compensation: ActionPayload) {
    forall w: W :: env.act(action, w).Some? ==> env.undo(compensation, env.act(action, w).value) == Some(w)
  }

  ghost predicate Invertibles<W(!new)>(env: Env<W>, steps: seq<SagaStep>) {
    forall i | 0 <= i < |steps| :: Invertible(env, steps[i].action, steps[i].compensation)
  }

  /** Calls report what they did: a call that went through succeeds, and a reported failure left no effect. */
  ghost predicate HonestCalls<W(!new)>(env: Env<W>) {
    forall n: nat :: env.choice(n).call == Succeed || env.choice(n).call == Fail(false)
  }

  /** Compensation calls succeed whenever the tool accepts them. */
  ghost predicate ReliableUndo<W(!new)>(env: Env<W>) {
    forall n: nat :: env.choice(n).undoCall == Succeed
  }

  /** A compensation that does not succeed leaves no effect. */
  ghost predicate CleanUndo<W(!new)>(env: Env<W>) {
    forall n: nat :: env.choice(n).undoCall in {Succeed, Fail(false), Raise(false)}
  }

  /** The resolver exists, and at every instant its answer means the truth, in whatever form. */
  ghost predicate TruthfulResolver<W(!new)>(env: Env<W>) {
    env.hasResolver && forall n: nat ::
      env.choice(n).resolver.Answers? && MeansApplied(env.choice(n).resolver.ifApplied)
      && MeansNotApplied(env.choice(n).resolver.ifNot)
  }

  /** One such resolver. */
  const PLAIN_TRUTH := Answers(Flag(true), Flag(false))

  lemma TruthIsUnderstood<W(!new)>(env: Env<W>, n: nat, truth: bool)
    requires TruthfulResolver(env)
    ensures ResolverReply(env.choice(n).resolver, truth) == if truth then SaysApplied else SaysNotApplied
  {
    hide NormaliseResolution, MeansApplied, MeansNotApplied;
    var r := env.choice(n).resolver;
    AnswersAreUnderstood(r.ifApplied);
    AnswersAreUnderstood(r.ifNot);
  }
}
