/** The analysis lane of src/api/dlt_routes.py from the reuse decision to the cached recommendation,
    over many concurrent requests: src/dlt/reuse.py decides, src/dlt/single_flight.py gates. */
module AnalysisLane {
  import opened Options
  import opened Verdicts
  import Flight = SingleFlight
  import Machines

  type Fingerprint = Flight.Fingerprint
  type Request = Flight.Request

  // ---------------------------------------------------------------------
  // Reuse
  // ---------------------------------------------------------------------

  /** What the model produced; the two marks are those a discrepancy leaves on a finding. */
  datatype Finding = Finding(text: string, discrepancy: bool, contradicted: bool)

  datatype Persistence = Draft | Final | Otherwise

  datatype Recommendation = Recommendation(finding: Finding, state: Persistence, corroboration: Option<Verdict>)

  predicate DescribesOneOccurrence(rec: Recommendation) {
    || (rec.corroboration.Some? && IsDiscrepancy(rec.corroboration.value))
    || rec.finding.discrepancy || rec.finding.contradicted
  }

  predicate Usable(rec: Option<Recommendation>) {
    rec.Some? && rec.value.state in {Draft, Final} && !DescribesOneOccurrence(rec.value)
  }

  /** What may be served: a draft or a final finding that bears no mark of a discrepancy, in the verdict it
      was reasoned under or on itself. */
  lemma UsableExactly(rec: Option<Recommendation>)
    ensures Usable(rec) <==>
      && rec.Some? && rec.value.state != Otherwise
      && rec.value.corroboration in {None, Some(Corroborated), Some(Unverifiable)}
      && !rec.value.finding.discrepancy && !rec.value.finding.contradicted
  {
    if rec.Some? && rec.value.corroboration.Some? {
      match rec.value.corroboration.value
      case Corroborated =>
      case Partial =>
      case Contradicted =>
      case Unverifiable =>
    }
  }

  datatype Decision = Canned | ReuseGroup | Llm(awaitsCache: bool)

  /** The treatment of one message. `business` is failure class A. */
  function Decide(reuse: bool, business: bool, verdict: Verdict, group: Option<Recommendation>): Decision {
    if !business then Canned
    else if IsDiscrepancy(verdict) then Llm(false)
    else if !reuse then Llm(false)
    else if !Usable(group) then Llm(true)
    else ReuseGroup
  }

  /** A message waits for the cache exactly when it needs the model and any usable recommendation would
      have been served to it instead; and a recommendation is never served against a discrepancy. */
  lemma AwaitsExactly(reuse: bool, business: bool, verdict: Verdict, group: Option<Recommendation>, other: Recommendation)
    requires Usable(Some(other))
    ensures var d := Decide(reuse, business, verdict, group);
      && (d == Llm(true) <==> d.Llm? && Decide(reuse, business, verdict, Some(other)) == ReuseGroup)
      && (d == ReuseGroup <==> business && verdict in {Corroborated, Unverifiable} && reuse && Usable(group))
      && (d == Canned <==> !business)
  {
  }

  // ---------------------------------------------------------------------
  // Requests, step by step
  // ---------------------------------------------------------------------

  /** How a run of the model ended. `withheld`: the finding holds packet-specific text. `stored`: the
      write of the recommendation did not fail. */
  datatype Result = TimedOut | NoFinding | Produced(finding: Finding, withheld: bool, stored: bool)

  datatype Outcome = Pending | Fixed | Served(rec: Option<Recommendation>) | Ran(result: Result) | Aborted(running: bool)

  /** Decided; in the gate; past it (or past where it would be); answered but still in the gate; gone. */
  datatype Stage = Decided | AtGate | Treating | Closing | Gone

  /** `late`: its wait for the gate timed out. */
  datatype Query = Query(
    fingerprint: Fingerprint, business: bool, verdict: Verdict,
    group: Option<Recommendation>, decision: Decision, gated: bool, late: bool, stage: Stage, outcome: Outcome)

  /** The recommendation on file for each fingerprint, the gate, and the requests so far. */
  datatype State = State(recs: map<Fingerprint, Recommendation>, gate: Flight.Gate<nat>, queries: map<Request, Query>)

  datatype Config = Config(reuse: bool, singleFlight: bool)

  datatype Step =
    | Arrive(r: Request, fingerprint: Fingerprint, business: bool, verdict: Verdict)
    | Refresh(r: Request)              // the code check was attached; the group is read again
    | Enter(r: Request, made: nat)
    | Bypass(r: Request)
    | Acquire(r: Request)
    | TimeOut(r: Request)
    | Reread(r: Request)
    | Treat(r: Request, result: Result)
    | Exit(r: Request)
    | Cancel(r: Request)
    | Elsewhere(fingerprint: Fingerprint, rec: Recommendation)   // a write of another process

  function OnFile(s: State, fp: Fingerprint): Option<Recommendation> {
    if fp in s.recs then Some(s.recs[fp]) else None
  }

  predicate At(s: State, r: Request, stage: Stage) { r in s.queries && s.queries[r].stage == stage }

  /** Waits for the cache, so goes through the gate when there is one. */
  predicate GoesThroughGate(q: Query, cfg: Config) { q.decision == Llm(true) && cfg.singleFlight }

  predicate Enabled(s: State, step: Step, cfg: Config) {
    match step
    case Arrive(r, _, _, _) => r !in s.queries
    case Refresh(r) => At(s, r, Decided)
    case Enter(r, made) => At(s, r, Decided) && GoesThroughGate(s.queries[r], cfg)
                           && Flight.MayEnter(s.gate, r, s.queries[r].fingerprint, made)
    case Bypass(r) => At(s, r, Decided) && !GoesThroughGate(s.queries[r], cfg)
    case Acquire(r) => At(s, r, AtGate) && Flight.MayAcquire(s.gate, r)
    case TimeOut(r) => At(s, r, AtGate) && Flight.MayGiveUp(s.gate, r)
    case Reread(r) => At(s, r, AtGate) && r in s.gate.inside && s.gate.inside[r].status != Flight.Waiting
    case Treat(r, _) => At(s, r, Treating)
    case Exit(r) => At(s, r, Closing) && (s.queries[r].gated ==> Flight.Known(s.gate, r))
    case Cancel(r) => r in s.queries && s.queries[r].stage !in {Closing, Gone}
                      && (s.queries[r].gated ==> Flight.Known(s.gate, r))
    case Elsewhere(_, _) => true
  }

  function With(s: State, r: Request, q: Query): State { s.(queries := s.queries[r := q]) }

  function Left(s: State, r: Request): Flight.Gate<nat>
    requires r in s.queries && (s.queries[r].gated ==> Flight.Known(s.gate, r))
  {
    if s.queries[r].gated then Flight.Exit(s.gate, r) else s.gate
  }

  function Answer(q: Query, result: Result): Outcome {
    match q.decision
    case Canned => Fixed
    case ReuseGroup => Served(q.group)
    case Llm(_) => Ran(result)
  }

  /** Only a run's own finding is cached, and neither one that explains a discrepancy nor a withheld one. */
  predicate Caches(q: Query, result: Result) {
    q.decision.Llm? && result.Produced? && !IsDiscrepancy(q.verdict) && !result.withheld && result.stored
  }

  function Apply(s: State, step: Step, cfg: Config): State
    requires Enabled(s, step, cfg)
  {
    match step
    case Arrive(r, fp, business, verdict) =>
      var group := OnFile(s, fp);
      With(s, r, Query(fp, business, verdict, group, Decide(cfg.reuse, business, verdict, group), false, false, Decided, Pending))
    case Refresh(r) =>
      var q := s.queries[r];
      With(s, r, q.(group := OnFile(s, q.fingerprint)))
    case Enter(r, made) =>
      var q := s.queries[r];
      With(s.(gate := Flight.Enter(s.gate, r, q.fingerprint, made)), r, q.(gated := true, stage := AtGate))
    case Bypass(r) => With(s, r, s.queries[r].(stage := Treating))
    case Acquire(r) => s.(gate := Flight.Acquire(s.gate, r))
    case TimeOut(r) => With(s.(gate := Flight.GiveUp(s.gate, r)), r, s.queries[r].(late := true))
    case Reread(r) =>
      var q := s.queries[r];
      var group := if OnFile(s, q.fingerprint).Some? then OnFile(s, q.fingerprint) else q.group;
      With(s, r, q.(group := group, decision := Decide(cfg.reuse, q.business, q.verdict, group), stage := Treating))
    case Treat(r, result) =>
      var q := s.queries[r];
      var recs := if Caches(q, result) then s.recs[q.fingerprint := Recommendation(result.finding, Draft, Some(q.verdict))] else s.recs;
      With(s.(recs := recs), r, q.(stage := Closing, outcome := Answer(q, result)))
    case Exit(r) => With(s.(gate := Left(s, r)), r, s.queries[r].(stage := Gone))
    case Cancel(r) =>
      var q := s.queries[r];
      With(s.(gate := Left(s, r)), r, q.(stage := Gone, outcome := Aborted(q.stage == Treating && q.decision.Llm?)))
    case Elsewhere(fp, rec) => s.(recs := s.recs[fp := rec])
  }

  function Next(cfg: Config): (State, Step) -> Option<State> {
    (s: State, step: Step) => if Enabled(s, step, cfg) then Some(Apply(s, step, cfg)) else None
  }

  function Play(s: State, steps: seq<Step>, cfg: Config): Option<State> { Machines.After(Next(cfg), s, steps) }

  /** No request yet; anything may be on file. */
  predicate Initial(s: State) { s.gate == Flight.Gate(map[], map[], map[]) && s.queries == map[] }

  // ---------------------------------------------------------------------
  // Erasing discrepancies
  // ---------------------------------------------------------------------

  predicate ActsFor(step: Step, who: set<Request>) {
    match step
    case Elsewhere(_, _) => false
    case _ => step.r in who
  }

  function Kept(steps: seq<Step>, who: set<Request>): seq<Step> {
    if steps == [] then []
    else if ActsFor(steps[0], who) then Kept(steps[1..], who)
    else [steps[0]] + Kept(steps[1..], who)
  }

  function Without(s: State, who: set<Request>): State { s.(queries := s.queries - who) }

  predicate ArrivesInDiscrepancy(step: Step, who: set<Request>) {
    step.Arrive? && step.r in who ==> IsDiscrepancy(step.verdict)
  }

  /** The requests to erase never pass the gate and cache nothing. */
  ghost predicate Apart(s: State, who: set<Request>) {
    forall r | r in s.queries && r in who :: s.queries[r].decision != Llm(true) && !s.queries[r].gated
      && IsDiscrepancy(s.queries[r].verdict) && s.queries[r].stage != AtGate
  }

  lemma ErasedStep(s: State, step: Step, cfg: Config, who: set<Request>)
    requires Apart(s, who) && Enabled(s, step, cfg) && ArrivesInDiscrepancy(step, who) && ActsFor(step, who)
    ensures Apart(Apply(s, step, cfg), who) && Without(Apply(s, step, cfg), who) == Without(s, who)
  {
    assert Apply(s, step, cfg).queries - who == s.queries - who;
  }

  lemma KeptStep(s: State, step: Step, cfg: Config, who: set<Request>)
    requires Apart(s, who) && Enabled(s, step, cfg) && !ActsFor(step, who)
    ensures Apart(Apply(s, step, cfg), who) && Enabled(Without(s, who), step, cfg)
    ensures Apply(Without(s, who), step, cfg) == Without(Apply(s, step, cfg), who)
  {
    var s' := Apply(s, step, cfg);
    assert Enabled(Without(s, who), step, cfg);
    assert Apply(Without(s, who), step, cfg).queries == s'.queries - who;
  }

  lemma {:induction false} ErasedRun(s: State, steps: seq<Step>, cfg: Config, who: set<Request>)
    requires Apart(s, who) && Play(s, steps, cfg).Some?
    requires forall k | 0 <= k < |steps| :: ArrivesInDiscrepancy(steps[k], who)
    ensures Play(Without(s, who), Kept(steps, who), cfg) == Some(Without(Play(s, steps, cfg).value, who))
    decreases |steps|
  {
    if steps != [] {
      hide Apart, Enabled, Apply, ArrivesInDiscrepancy, ActsFor;
      var next := Apply(s, steps[0], cfg);
      assert ArrivesInDiscrepancy(steps[0], who);
      assert forall k | 0 <= k < |steps[1..]| :: steps[1..][k] == steps[k + 1];
      if ActsFor(steps[0], who) {
        ErasedStep(s, steps[0], cfg, who);
        ErasedRun(next, steps[1..], cfg, who);
      } else {
        KeptStep(s, steps[0], cfg, who);
        ErasedRun(next, steps[1..], cfg, who);
        var kept := [steps[0]] + Kept(steps[1..], who);
        assert kept[0] == steps[0] && kept[1..] == Kept(steps[1..], who);
      }
    }
  }

  /** Erasing any set of contradicted or partial occurrences from any run, concurrent or not, leaves a
      run in which every other request is decided, gated, served and cached exactly as before. */
  lemma DiscrepanciesAreInert(s: State, steps: seq<Step>, cfg: Config, who: set<Request>, r: Request)
    requires Initial(s) && Play(s, steps, cfg).Some?
    requires forall k | 0 <= k < |steps| :: ArrivesInDiscrepancy(steps[k], who)
    requires r !in who
    ensures Play(s, Kept(steps, who), cfg).Some?
    ensures var full, erased := Play(s, steps, cfg).value, Play(s, Kept(steps, who), cfg).value;
      && erased.recs == full.recs
      && (r in erased.queries <==> r in full.queries)
      && (r in full.queries ==> erased.queries[r] == full.queries[r])
  {
    hide Play;
    assert Without(s, who) == s;
    ErasedRun(s, steps, cfg, who);
  }

  // ---------------------------------------------------------------------
  // What is served
  // ---------------------------------------------------------------------

  /** The steps that read the group for a request. */
  predicate Reads(step: Step, r: Request) {
    match step
    case Arrive(q, _, _, _) => q == r
    case Refresh(q) => q == r
    case Reread(q) => q == r
    case _ => false
  }

  function LastRead(steps: seq<Step>, r: Request): (k: Option<nat>)
    ensures k.Some? ==> k.value < |steps| && Reads(steps[k.value], r)
  {
    if steps == [] then None
    else if Reads(steps[|steps| - 1], r) then Some(|steps| - 1)
    else LastRead(steps[..|steps| - 1], r)
  }

  /** What the last read of the group, `read` in the state `before`, says about the request. */
  predicate Told(q: Query, read: Step, before: State, cfg: Config) {
    && (if read.Refresh? then q.group == OnFile(before, q.fingerprint)
        else q.decision == Decide(cfg.reuse, q.business, q.verdict, q.group))
    && (q.outcome.Served? ==> q.decision == ReuseGroup && q.outcome.rec == q.group)
  }

  ghost predicate ToldBy(s: State, steps: seq<Step>, cfg: Config, r: Request, q: Query) {
    var k := LastRead(steps, r);
    k.Some? && Play(s, steps[..k.value], cfg).Some? && Told(q, steps[k.value], Play(s, steps[..k.value], cfg).value, cfg)
  }

  lemma StepTells(s: State, step: Step, cfg: Config, r: Request, read: Step, before: State)
    requires Enabled(s, step, cfg) && r in Apply(s, step, cfg).queries
    requires !Reads(step, r) ==> r in s.queries
    requires r in s.queries && !step.Arrive? ==> Told(s.queries[r], read, before, cfg)
    requires r in s.queries && step.Arrive? && step.r != r ==> Told(s.queries[r], read, before, cfg)
    requires r in s.queries && Reads(step, r) ==> !s.queries[r].outcome.Served?
    ensures Told(Apply(s, step, cfg).queries[r], if Reads(step, r) then step else read, if Reads(step, r) then s else before, cfg)
  {
  }

  /** Nothing is served before the group has been read for the last time. */
  predicate ServedLate(q: Query) { q.outcome.Served? ==> q.stage in {Closing, Gone} }

  lemma {:induction false} RunTells(s: State, steps: seq<Step>, cfg: Config, r: Request)
    requires Initial(s) && Play(s, steps, cfg).Some? && r in Play(s, steps, cfg).value.queries
    ensures ServedLate(Play(s, steps, cfg).value.queries[r])
    ensures ToldBy(s, steps, cfg, r, Play(s, steps, cfg).value.queries[r])
    decreases |steps|
  {
    if steps != [] {
      var n := |steps| - 1;
      var init, step := steps[..n], steps[n];
      assert steps == init + [step];
      Machines.LastStep(Next(cfg), s, init, step);
      var was := Play(s, init, cfg).value;
      assert Enabled(was, step, cfg) && Play(s, steps, cfg).value == Apply(was, step, cfg);
      hide Play;
      var read, before := step, was;
      if r in was.queries {
        RunTells(s, init, cfg, r);
        var k := LastRead(init, r).value;
        assert init[..k] == steps[..k];
        read, before := init[k], Play(s, init[..k], cfg).value;
      }
      StepTells(was, step, cfg, r, read, before);
    }
  }

  /** In every run, with any timeouts, any other writers and any settings: a served recommendation is not
      usable if and only if the last read of the group for that request was the one after the code check,
      which takes no new decision, and found none usable on file. */
  lemma ServedUnusableExactly(s: State, steps: seq<Step>, cfg: Config, r: Request)
    requires Initial(s) && Play(s, steps, cfg).Some? && r in Play(s, steps, cfg).value.queries
    requires Play(s, steps, cfg).value.queries[r].outcome.Served?
    ensures LastRead(steps, r).Some? && Play(s, steps[..LastRead(steps, r).value], cfg).Some?
    ensures var q, k := Play(s, steps, cfg).value.queries[r], LastRead(steps, r).value;
      !Usable(q.outcome.rec) <==> steps[k].Refresh? && !Usable(OnFile(Play(s, steps[..k], cfg).value, q.fingerprint))
  {
    RunTells(s, steps, cfg, r);
    hide Play;
  }

  /** So a request for which no code check was attached is served only what may be served. */
  lemma UnrefreshedServedUsable(s: State, steps: seq<Step>, cfg: Config, r: Request)
    requires Initial(s) && Play(s, steps, cfg).Some? && r in Play(s, steps, cfg).value.queries
    requires Play(s, steps, cfg).value.queries[r].outcome.Served? && forall k | 0 <= k < |steps| :: steps[k] != Refresh(r)
    ensures Usable(Play(s, steps, cfg).value.queries[r].outcome.rec)
  {
    hide Play;
    ServedUnusableExactly(s, steps, cfg, r);
  }

  // ---------------------------------------------------------------------
  // What is on file
  // ---------------------------------------------------------------------

  /** Step `k` left a finding on file for `fp`: it ended a run of the model, on a message without a
      discrepancy, that produced a finding which was not withheld and whose write did not fail. */
  predicate LeavesAt(now: State, steps: seq<Step>, fp: Fingerprint, k: nat)
    requires k < |steps|
  {
    && steps[k].Treat? && steps[k].r in now.queries
    && var q := now.queries[steps[k].r];
       && q.fingerprint == fp && q.verdict in {Corroborated, Unverifiable} && q.outcome == Ran(steps[k].result)
       && steps[k].result.Produced? && !steps[k].result.withheld && steps[k].result.stored
  }

  /** The last step of the first `n` that wrote for `fp`: such a run, or another process. */
  function LastWrite(now: State, steps: seq<Step>, fp: Fingerprint, n: nat): (k: Option<nat>)
    requires n <= |steps|
    ensures k.Some? ==> k.value < n
  {
    if n == 0 then None
    else if LeavesAt(now, steps, fp, n - 1) || (steps[n - 1].Elsewhere? && steps[n - 1].fingerprint == fp) then Some(n - 1)
    else LastWrite(now, steps, fp, n - 1)
  }

  /** What that step wrote: the finding as a draft, with the verdict of the request. */
  function Written(now: State, step: Step): Recommendation
    requires step.Elsewhere? || (step.Treat? && step.r in now.queries && step.result.Produced?)
  {
    match step
    case Elsewhere(_, rec) => rec
    case _ => Recommendation(step.result.finding, Draft, Some(now.queries[step.r].verdict))
  }

  /** Who has been treated stays as he was treated. */
  ghost predicate TreatedForGood(now: State, steps: seq<Step>) {
    forall k | 0 <= k < |steps| && steps[k].Treat? :: steps[k].r in now.queries && now.queries[steps[k].r].stage in {Closing, Gone}
  }

  lemma StepKeeps(now: State, step: Step, cfg: Config, r: Request)
    requires Enabled(now, step, cfg) && r in now.queries && now.queries[r].stage in {Closing, Gone}
    ensures var q, next := now.queries[r], Apply(now, step, cfg);
      && r in next.queries && next.queries[r].stage in {Closing, Gone}
      && next.queries[r].fingerprint == q.fingerprint && next.queries[r].verdict == q.verdict && next.queries[r].outcome == q.outcome
  {
  }

  lemma {:induction false} SameWrites(now: State, init: seq<Step>, step: Step, cfg: Config, fp: Fingerprint, n: nat)
    requires Enabled(now, step, cfg) && TreatedForGood(now, init) && n <= |init|
    ensures LastWrite(Apply(now, step, cfg), init + [step], fp, n) == LastWrite(now, init, fp, n)
    ensures var k := LastWrite(now, init, fp, n); k.Some? ==>
      && (init[k.value].Elsewhere? || (init[k.value].Treat? && init[k.value].r in now.queries && init[k.value].result.Produced?))
      && (init[k.value].Treat? ==> init[k.value].r in Apply(now, step, cfg).queries)
      && Written(Apply(now, step, cfg), init[k.value]) == Written(now, init[k.value])
  {
    if n > 0 {
      SameWrites(now, init, step, cfg, fp, n - 1);
      assert (init + [step])[n - 1] == init[n - 1];
      if init[n - 1].Treat? {
        StepKeeps(now, step, cfg, init[n - 1].r);
      }
    }
  }

  lemma StepWrites(now: State, step: Step, cfg: Config, fp: Fingerprint)
    requires Enabled(now, step, cfg)
    ensures var next := Apply(now, step, cfg);
      OnFile(next, fp)
        == if LeavesAt(next, [step], fp, 0) || (step.Elsewhere? && step.fingerprint == fp) then Some(Written(next, step)) else OnFile(now, fp)
  {
    if step.Treat? {
      EitherWay(now.queries[step.r].verdict);
      assert [step][0] == step;
    }
  }

  lemma EitherWay(v: Verdict)
    ensures IsDiscrepancy(v) <==> v !in {Corroborated, Unverifiable}
  {
    match v
    case Corroborated =>
    case Partial =>
    case Contradicted =>
    case Unverifiable =>
  }

  /** In every run, with any timeouts, writers and settings: on file for a fingerprint is what was last written
      for it, by another process or by a run of the model whose finding may be cached; and what was there
      at first when nothing was. */
  lemma {:induction false} OnFileExactly(s: State, steps: seq<Step>, cfg: Config, fp: Fingerprint)
    requires Initial(s) && Play(s, steps, cfg).Some?
    ensures var now := Play(s, steps, cfg).value; var k := LastWrite(now, steps, fp, |steps|);
      && (k.Some? ==> steps[k.value].Elsewhere? || (steps[k.value].Treat? && steps[k.value].r in now.queries && steps[k.value].result.Produced?))
      && OnFile(now, fp) == if k.Some? then Some(Written(now, steps[k.value])) else OnFile(s, fp)
    ensures TreatedForGood(Play(s, steps, cfg).value, steps)
    decreases |steps|
  {
    if steps != [] {
      var n := |steps| - 1;
      var init, step := steps[..n], steps[n];
      assert steps == init + [step];
      Machines.LastStep(Next(cfg), s, init, step);
      var was := Play(s, init, cfg).value;
      assert Enabled(was, step, cfg) && Play(s, steps, cfg).value == Apply(was, step, cfg);
      OnFileExactly(s, init, cfg, fp);
      SameWrites(was, init, step, cfg, fp, n);
      StepWrites(was, step, cfg, fp);
      TreatedStay(was, init, step, cfg);
      hide Play, Enabled, Apply, TreatedForGood;
      assert LeavesAt(Play(s, steps, cfg).value, steps, fp, n) <==> LeavesAt(Play(s, steps, cfg).value, [step], fp, 0);
    }
  }

  lemma TreatedStay(now: State, init: seq<Step>, step: Step, cfg: Config)
    requires Enabled(now, step, cfg) && TreatedForGood(now, init)
    ensures TreatedForGood(Apply(now, step, cfg), init + [step])
  {
    var steps := init + [step];
    forall k | 0 <= k < |steps| && steps[k].Treat?
      ensures steps[k].r in Apply(now, step, cfg).queries && Apply(now, step, cfg).queries[steps[k].r].stage in {Closing, Gone}
    {
      if k < |init| {
        assert steps[k] == init[k];
        StepKeeps(now, step, cfg, init[k].r);
      }
    }
  }

  /** Where a recommendation comes from: a step that ended a run on a message without a discrepancy with this
      finding, neither withheld nor lost. */
  ghost predicate FromARun(s: State, steps: seq<Step>, cfg: Config, fp: Fingerprint, rec: Recommendation) {
    exists k | 0 <= k < |steps| :: && Play(s, steps[..k], cfg).Some?
      && Leaves(Play(s, steps[..k], cfg).value, steps[k], fp, rec)
  }

  predicate Leaves(was: State, step: Step, fp: Fingerprint, rec: Recommendation) {
    && step.Treat? && step.result == Produced(rec.finding, false, true) && At(was, step.r, Treating)
    && var q := was.queries[step.r];
       && q.fingerprint == fp && q.decision.Llm? && q.verdict in {Corroborated, Unverifiable}
       && rec == Recommendation(step.result.finding, Draft, Some(q.verdict))
  }

  /** Everything on file, read or served is from a run. */
  ghost predicate Honest(s: State, steps: seq<Step>, cfg: Config, now: State) {
    && (forall fp | fp in now.recs :: FromARun(s, steps, cfg, fp, now.recs[fp]))
    && (forall r | r in now.queries && now.queries[r].group.Some? ::
          FromARun(s, steps, cfg, now.queries[r].fingerprint, now.queries[r].group.value))
    && (forall r | r in now.queries && now.queries[r].outcome.Served? && now.queries[r].outcome.rec.Some? ::
          FromARun(s, steps, cfg, now.queries[r].fingerprint, now.queries[r].outcome.rec.value))
  }

  lemma StillFromARun(s: State, init: seq<Step>, step: Step, cfg: Config)
    ensures forall fp, rec | FromARun(s, init, cfg, fp, rec) :: FromARun(s, init + [step], cfg, fp, rec)
  {
    hide Play;
    forall fp, rec | FromARun(s, init, cfg, fp, rec)
      ensures FromARun(s, init + [step], cfg, fp, rec)
    {
      var k :| 0 <= k < |init| && Play(s, init[..k], cfg).Some? && Leaves(Play(s, init[..k], cfg).value, init[k], fp, rec);
      assert (init + [step])[..k] == init[..k] && (init + [step])[k] == init[k];
    }
  }

  lemma CachedIsFromARun(s: State, init: seq<Step>, step: Step, cfg: Config, fp: Fingerprint)
    requires Play(s, init, cfg).Some? && Enabled(Play(s, init, cfg).value, step, cfg) && !step.Elsewhere?
    ensures var was := Play(s, init, cfg).value; var now := Apply(was, step, cfg);
      fp in now.recs ==> (fp in was.recs && now.recs[fp] == was.recs[fp]) || FromARun(s, init + [step], cfg, fp, now.recs[fp])
  {
    hide Play;
    var was := Play(s, init, cfg).value;
    var now, n := Apply(was, step, cfg), |init|;
    assert (init + [step])[..n] == init && (init + [step])[n] == step;
    if fp in now.recs && !(fp in was.recs && now.recs[fp] == was.recs[fp]) {
      EitherWay(was.queries[step.r].verdict);
      assert Leaves(was, step, fp, now.recs[fp]);
    }
  }

  /** A step shows a request nothing but what it had, or what is on file for its fingerprint. */
  lemma StepShows(was: State, step: Step, cfg: Config, r: Request)
    requires Enabled(was, step, cfg) && r in Apply(was, step, cfg).queries
    ensures var q := Apply(was, step, cfg).queries[r];
      && (q.group.Some? ==> (q.fingerprint in was.recs && q.group.value == was.recs[q.fingerprint])
                            || (r in was.queries && was.queries[r].fingerprint == q.fingerprint && was.queries[r].group == q.group))
      && (q.outcome.Served? ==> r in was.queries && was.queries[r].fingerprint == q.fingerprint
                                && (was.queries[r].group == q.outcome.rec || was.queries[r].outcome == q.outcome))
  {
  }

  lemma {:induction false} RunIsHonest(s: State, steps: seq<Step>, cfg: Config)
    requires Initial(s) && s.recs == map[] && Play(s, steps, cfg).Some? && forall k | 0 <= k < |steps| :: !steps[k].Elsewhere?
    ensures Honest(s, steps, cfg, Play(s, steps, cfg).value)
    decreases |steps|
  {
    if steps != [] {
      var n := |steps| - 1;
      var init, step := steps[..n], steps[n];
      assert steps == init + [step];
      Machines.LastStep(Next(cfg), s, init, step);
      var was := Play(s, init, cfg).value;
      assert Enabled(was, step, cfg) && Play(s, steps, cfg).value == Apply(was, step, cfg);
      hide Play;
      RunIsHonest(s, init, cfg);
      StillFromARun(s, init, step, cfg);
      forall fp
        ensures fp in Apply(was, step, cfg).recs ==> FromARun(s, steps, cfg, fp, Apply(was, step, cfg).recs[fp])
      {
        CachedIsFromARun(s, init, step, cfg, fp);
      }
      HonestStep(s, init, steps, step, cfg, was);
    }
  }

  lemma HonestStep(s: State, init: seq<Step>, steps: seq<Step>, step: Step, cfg: Config, was: State)
    requires Enabled(was, step, cfg) && Honest(s, init, cfg, was)
    requires forall fp, rec | FromARun(s, init, cfg, fp, rec) :: FromARun(s, steps, cfg, fp, rec)
    requires forall fp | fp in Apply(was, step, cfg).recs :: FromARun(s, steps, cfg, fp, Apply(was, step, cfg).recs[fp])
    ensures Honest(s, steps, cfg, Apply(was, step, cfg))
  {
    hide FromARun;
    var now := Apply(was, step, cfg);
    forall r | r in now.queries
      ensures now.queries[r].group.Some? ==> FromARun(s, steps, cfg, now.queries[r].fingerprint, now.queries[r].group.value)
      ensures now.queries[r].outcome.Served? && now.queries[r].outcome.rec.Some? ==>
        FromARun(s, steps, cfg, now.queries[r].fingerprint, now.queries[r].outcome.rec.value)
    {
      StepShows(was, step, cfg, r);
    }
  }

  /** In one process, from nothing on file, whatever times out and however it is set: whatever is served was
      produced by an earlier run of the fingerprint, on a message without a discrepancy, and was neither
      withheld as packet-specific nor lost. */
  lemma ServedIsNeverWithheld(s: State, steps: seq<Step>, cfg: Config, r: Request) returns (k: nat, was: State)
    requires Initial(s) && s.recs == map[] && Play(s, steps, cfg).Some? && forall k | 0 <= k < |steps| :: !steps[k].Elsewhere?
    requires var now := Play(s, steps, cfg).value;
      r in now.queries && now.queries[r].outcome.Served? && now.queries[r].outcome.rec.Some?
    ensures k < |steps| && Play(s, steps[..k], cfg) == Some(was) && steps[k].Treat? && At(was, steps[k].r, Treating)
    ensures var q, rec, source := Play(s, steps, cfg).value.queries[r], Play(s, steps, cfg).value.queries[r].outcome.rec.value, was.queries[steps[k].r];
      && steps[k].result == Produced(rec.finding, false, true)
      && source.fingerprint == q.fingerprint && source.decision.Llm? && source.verdict in {Corroborated, Unverifiable}
      && rec.state == Draft && rec.corroboration == Some(source.verdict)
  {
    RunIsHonest(s, steps, cfg);
    hide Play;
    var q := Play(s, steps, cfg).value.queries[r];
    k :| 0 <= k < |steps| && Play(s, steps[..k], cfg).Some?
         && Leaves(Play(s, steps[..k], cfg).value, steps[k], q.fingerprint, q.outcome.rec.value);
    was := Play(s, steps[..k], cfg).value;
  }

  // ---------------------------------------------------------------------
  // Who goes through the gate
  // ---------------------------------------------------------------------

  predicate GateKnown(q: Query, cfg: Config) {
    && (q.gated ==> cfg.singleFlight && cfg.reuse && q.business && !IsDiscrepancy(q.verdict) && q.stage != Decided)
    && (q.decision == Llm(true) ==> cfg.reuse && q.business && !IsDiscrepancy(q.verdict))
    && (q.decision == Llm(false) ==> IsDiscrepancy(q.verdict) || !cfg.reuse)
    && (q.stage == AtGate ==> q.gated)
    && (q.outcome.Ran? ==> q.decision.Llm?)
    && (q.outcome != Pending ==> q.stage in {Closing, Gone})
    && (!q.gated && (q.stage == Treating || q.outcome.Ran?) ==> !(q.decision == Llm(true) && cfg.singleFlight))
  }

  lemma StepGateKnown(s: State, step: Step, cfg: Config, r: Request)
    requires Enabled(s, step, cfg) && (r in s.queries ==> GateKnown(s.queries[r], cfg))
    ensures r in Apply(s, step, cfg).queries ==> GateKnown(Apply(s, step, cfg).queries[r], cfg)
  {
  }

  lemma {:induction false} RunGateKnown(s: State, steps: seq<Step>, cfg: Config, r: Request)
    requires Play(s, steps, cfg).Some? && (r in s.queries ==> GateKnown(s.queries[r], cfg))
    ensures var now := Play(s, steps, cfg).value; r in now.queries ==> GateKnown(now.queries[r], cfg)
    decreases |steps|
  {
    if steps != [] {
      hide Enabled, Apply, GateKnown;
      StepGateKnown(s, steps[0], cfg, r);
      RunGateKnown(Apply(s, steps[0], cfg), steps[1..], cfg, r);
    }
  }

  /** In every run: only a business failure without a discrepancy goes through the gate, and only when gate
      and reuse are on; and a run of the model past the gate is of a discrepancy, unless one of them is off. */
  lemma GatedExactly(s: State, steps: seq<Step>, cfg: Config, r: Request)
    requires Initial(s) && Play(s, steps, cfg).Some? && r in Play(s, steps, cfg).value.queries
    ensures var q := Play(s, steps, cfg).value.queries[r];
      && (q.gated ==> cfg.singleFlight && cfg.reuse && q.business && q.verdict in {Corroborated, Unverifiable})
      && (q.outcome.Ran? && !q.gated ==> q.verdict in {Partial, Contradicted} || !cfg.singleFlight || !cfg.reuse)
  {
    RunGateKnown(s, steps, cfg, r);
    EitherWay(Play(s, steps, cfg).value.queries[r].verdict);
  }

  // ---------------------------------------------------------------------
  // How many runs of the model a fingerprint costs
  // ---------------------------------------------------------------------

  predicate Running(q: Query) { q.gated && q.stage == Treating && q.decision.Llm? }

  /** Requests whose wait timed out. */
  function LateOf(s: State, fp: Fingerprint): set<Request> {
    set r | r in s.queries && s.queries[r].fingerprint == fp && s.queries[r].late
  }

  /** The query ran the model to the end and left a recommendation that can be served. */
  predicate Fruitful(q: Query) {
    && q.gated && q.outcome.Ran? && Caches(q, q.outcome.result)
    && Usable(Some(Recommendation(q.outcome.result.finding, Draft, Some(q.verdict))))
  }

  predicate RanModel(q: Query) { Running(q) || (q.gated && (q.outcome.Ran? || (q.outcome.Aborted? && q.outcome.running))) }

  function ModelRuns(s: State, fp: Fingerprint): set<Request> {
    set r | r in s.queries && s.queries[r].fingerprint == fp && RanModel(s.queries[r])
  }

  /** Runs that ended and left no usable recommendation. */
  function Fruitless(s: State, fp: Fingerprint): set<Request> {
    set r | r in s.queries && s.queries[r].fingerprint == fp && RanModel(s.queries[r])
            && !Running(s.queries[r]) && !Fruitful(s.queries[r])
  }

  /** What links a request to the gate. */
  predicate LinkedAt(s: State, r: Request) {
    && (r in s.gate.inside ==>
          && r in s.queries && s.queries[r].gated && s.queries[r].stage in {AtGate, Treating, Closing}
          && s.gate.inside[r].fingerprint == s.queries[r].fingerprint && (s.gate.inside[r].status == Flight.GaveUp <==> s.queries[r].late))
    && (r in s.queries && s.queries[r].gated && !s.queries[r].late && s.queries[r].stage in {Treating, Closing} ==> Flight.Holds(s.gate, r))
  }

  ghost predicate Linked(s: State) { forall r :: LinkedAt(s, r) }

  /** What the decision of a request says about it. */
  predicate Consistent(q: Query) {
    && (q.gated ==> q.business && !IsDiscrepancy(q.verdict) && q.stage != Decided)
    && (q.decision == Llm(true) ==> q.business && !IsDiscrepancy(q.verdict))
    && (q.decision.Llm? ==> q.decision == Llm(true) || IsDiscrepancy(q.verdict))
    && (!q.gated && q.stage == Treating ==> q.decision != Llm(true))
    && (q.outcome != Pending ==> q.stage in {Closing, Gone})
    && (q.stage == AtGate ==> q.gated)
    && (q.outcome.Ran? ==> q.decision.Llm?)
    && (q.late ==> q.gated)
  }

  /** And, when no wait timed out, about what is on file. */
  predicate Agrees(q: Query, rec: Option<Recommendation>) {
    && !q.late && (q.outcome.Served? ==> Usable(q.outcome.rec))
    && (Running(q) ==> !Usable(rec))
    && (Fruitful(q) ==> Usable(rec))
    && (q.decision == ReuseGroup && q.outcome == Pending ==> Usable(rec) && Usable(q.group))
    && (q.stage in {Decided, AtGate} && Usable(q.group) ==> Usable(rec))
  }

  ghost predicate Calm(s: State) {
    && Flight.Sound(s.gate) && Linked(s)
    && (forall r | r in s.queries :: Consistent(s.queries[r]) && Agrees(s.queries[r], OnFile(s, s.queries[r].fingerprint)))
    && (forall a, b | a in s.queries && b in s.queries && Fruitful(s.queries[a]) && Fruitful(s.queries[b])
          && s.queries[a].fingerprint == s.queries[b].fingerprint :: a == b)
  }

  const On: Config := Config(true, true)

  /** A step of a run in which nobody gives up waiting and no other process writes. */
  predicate Quiet(s: State, step: Step) { Local(s, step) && !step.TimeOut? }

  /** A step of a run in which no other process writes. */
  predicate Local(s: State, step: Step) { Enabled(s, step, On) && !step.Elsewhere? }

  lemma KeepsSound(s: State, step: Step)
    requires Flight.Sound(s.gate) && Local(s, step)
    ensures Flight.Sound(Apply(s, step, On).gate)
  {
    hide Flight.Sound;
    match step {
      case Enter(r, made) => Flight.EnterKeeps(s.gate, r, s.queries[r].fingerprint, made);
      case Acquire(r) => Flight.AcquireKeeps(s.gate, r);
      case TimeOut(r) => Flight.GiveUpKeeps(s.gate, r);
      case Exit(r) => if s.queries[r].gated { Flight.ExitKeeps(s.gate, r); }
      case Cancel(r) => if s.queries[r].gated { Flight.ExitKeeps(s.gate, r); }
      case _ =>
    }
  }

  lemma StaysLinked(s: State, step: Step, r: Request)
    requires Local(s, step) && LinkedAt(s, r) && (r in s.queries ==> Consistent(s.queries[r]))
    ensures LinkedAt(Apply(s, step, On), r)
  {
    hide Decide, Answer, Caches;
  }

  lemma KeepsLinked(s: State, step: Step)
    requires Calm(s) && Quiet(s, step)
    ensures Linked(Apply(s, step, On))
  {
    forall r
      ensures LinkedAt(Apply(s, step, On), r)
    {
      assert LinkedAt(s, r);
      assert r in s.queries ==> Consistent(s.queries[r]);
      StaysLinked(s, step, r);
    }
  }

  /** Two requests past the gate of one fingerprint are one request. */
  lemma OneIsPast(s: State, a: Request, b: Request)
    requires Flight.Sound(s.gate) && Linked(s) && a in s.queries && b in s.queries
    requires s.queries[a].gated && s.queries[a].stage == Treating && !s.queries[a].late
    requires s.queries[b].gated && s.queries[b].stage == Treating && !s.queries[b].late
    requires s.queries[a].fingerprint == s.queries[b].fingerprint
    ensures a == b
  {
    assert LinkedAt(s, a) && LinkedAt(s, b);
  }

  /** What is on file changes only when a running request of the fingerprint ends with a finding. */
  lemma OnlyRunsCache(s: State, step: Step, fp: Fingerprint)
    requires Calm(s) && Quiet(s, step)
    ensures OnFile(Apply(s, step, On), fp) == OnFile(s, fp) || (step.Treat? && Running(s.queries[step.r]) && s.queries[step.r].fingerprint == fp)
  {
  }

  lemma ActorAgrees(s: State, step: Step)
    requires Calm(s) && Quiet(s, step)
    ensures step.r in Apply(s, step, On).queries && Consistent(Apply(s, step, On).queries[step.r])
    ensures var s' := Apply(s, step, On); Agrees(s'.queries[step.r], OnFile(s', s'.queries[step.r].fingerprint))
  {
    hide Flight.Sound, Linked;
    if step.r in s.queries {
      assert Consistent(s.queries[step.r]) && Agrees(s.queries[step.r], OnFile(s, s.queries[step.r].fingerprint));
    }
  }

  lemma OthersAgree(s: State, step: Step, r: Request)
    requires Calm(s) && Quiet(s, step) && r in s.queries && r != step.r
    ensures r in Apply(s, step, On).queries && Apply(s, step, On).queries[r] == s.queries[r]
    ensures Agrees(s.queries[r], OnFile(Apply(s, step, On), s.queries[r].fingerprint))
  {
    var q := s.queries[r];
    OnlyRunsCache(s, step, q.fingerprint);
    assert Agrees(q, OnFile(s, q.fingerprint));
    if OnFile(Apply(s, step, On), q.fingerprint) != OnFile(s, q.fingerprint) {
      var p := s.queries[step.r];
      assert Agrees(p, OnFile(s, q.fingerprint)) && !p.late && !q.late;
      if Running(q) {
        OneIsPast(s, r, step.r);
      }
    }
  }

  /** While a request runs, none of its fingerprint has borne fruit. */
  lemma NoFruitYet(s: State, r: Request, c: Request)
    requires Calm(s) && r in s.queries && c in s.queries && Running(s.queries[r])
    requires s.queries[c].fingerprint == s.queries[r].fingerprint
    ensures !Fruitful(s.queries[c])
  {
    assert Agrees(s.queries[r], OnFile(s, s.queries[r].fingerprint));
    assert Agrees(s.queries[c], OnFile(s, s.queries[r].fingerprint));
  }

  lemma FruitIsNew(s: State, step: Step, a: Request)
    requires Calm(s) && Quiet(s, step) && a in Apply(s, step, On).queries && Fruitful(Apply(s, step, On).queries[a])
    ensures a in s.queries && s.queries[a].fingerprint == Apply(s, step, On).queries[a].fingerprint
    ensures Fruitful(s.queries[a]) || (step.r == a && Running(s.queries[a]))
  {
    hide Flight.Sound, Linked, Agrees;
    if a in s.queries {
      assert Consistent(s.queries[a]);
    }
  }

  lemma StaysUnique(s: State, step: Step, a: Request, b: Request)
    requires Calm(s) && Quiet(s, step) && a in Apply(s, step, On).queries && b in Apply(s, step, On).queries
    requires Fruitful(Apply(s, step, On).queries[a]) && Fruitful(Apply(s, step, On).queries[b])
    requires Apply(s, step, On).queries[a].fingerprint == Apply(s, step, On).queries[b].fingerprint
    ensures a == b
  {
    FruitIsNew(s, step, a);
    FruitIsNew(s, step, b);
    hide Fruitful, Apply, Enabled;
    if Running(s.queries[a]) {
      NoFruitYet(s, a, b);
    }
    if Running(s.queries[b]) {
      NoFruitYet(s, b, a);
    }
  }

  lemma StaysCalm(s: State, step: Step)
    requires Calm(s) && Quiet(s, step)
    ensures Calm(Apply(s, step, On))
  {
    var s' := Apply(s, step, On);
    KeepsSound(s, step);
    KeepsLinked(s, step);
    ActorAgrees(s, step);
    forall r | r in s'.queries
      ensures Consistent(s'.queries[r]) && Agrees(s'.queries[r], OnFile(s', s'.queries[r].fingerprint))
    {
      if r != step.r {
        assert r in s.queries;
        OthersAgree(s, step, r);
        assert Consistent(s.queries[r]);
      }
    }
    forall a, b | a in s'.queries && b in s'.queries && Fruitful(s'.queries[a]) && Fruitful(s'.queries[b])
                  && s'.queries[a].fingerprint == s'.queries[b].fingerprint
      ensures a == b
    {
      StaysUnique(s, step, a, b);
    }
    hide Enabled, Apply, Consistent, Agrees, Linked, Flight.Sound, Fruitful, OnFile;
  }

  lemma {:induction false} QuietRun(s: State, steps: seq<Step>)
    requires Calm(s) && Play(s, steps, On).Some?
    requires forall k | 0 <= k < |steps| :: !steps[k].TimeOut? && !steps[k].Elsewhere?
    ensures Calm(Play(s, steps, On).value)
    decreases |steps|
  {
    if steps != [] {
      hide Calm, Apply, Enabled;
      StaysCalm(s, steps[0]);
      QuietRun(Apply(s, steps[0], On), steps[1..]);
    }
  }

  lemma Starts(s: State)
    requires Initial(s)
    ensures Calm(s)
  {
    assert Flight.Sound(s.gate);
  }

  // ---------------------------------------------------------------------
  // The account when waits time out
  // ---------------------------------------------------------------------

  ghost predicate Ordered(s: State) {
    Flight.Sound(s.gate) && Linked(s) && forall r | r in s.queries :: Consistent(s.queries[r])
  }

  /** The accounts a request can be in: it bore fruit, or runs, without having given up waiting; or it did
      give up, and is over without fruit. */
  predicate IsFruit(q: Query, fp: Fingerprint) { q.fingerprint == fp && !q.late && Fruitful(q) }

  predicate IsActive(q: Query, fp: Fingerprint) { q.fingerprint == fp && !q.late && Running(q) }

  predicate IsSpent(q: Query, fp: Fingerprint) {
    q.fingerprint == fp && q.late && q.stage in {Closing, Gone} && !Fruitful(q)
  }

  function Fruits(s: State, fp: Fingerprint): set<Request> { set r | r in s.queries && IsFruit(s.queries[r], fp) }

  function Active(s: State, fp: Fingerprint): set<Request> { set r | r in s.queries && IsActive(s.queries[r], fp) }

  function Spent(s: State, fp: Fingerprint): set<Request> { set r | r in s.queries && IsSpent(s.queries[r], fp) }

  /** A second fruit needs that somebody late spoiled the first; and while one runs, or nothing usable is on
      file, all of them have been spoiled. */
  ghost predicate Balanced(s: State, fp: Fingerprint) {
    && |Fruits(s, fp)| <= |Spent(s, fp)| + 1
    && (Active(s, fp) != {} || !Usable(OnFile(s, fp)) ==> |Fruits(s, fp)| <= |Spent(s, fp)|)
  }

  lemma StaysOrdered(s: State, step: Step)
    requires Ordered(s) && Local(s, step)
    ensures Ordered(Apply(s, step, On))
  {
    var s' := Apply(s, step, On);
    KeepsSound(s, step);
    forall r
      ensures LinkedAt(s', r) && (r in s'.queries ==> Consistent(s'.queries[r]))
    {
      assert LinkedAt(s, r) && (r in s.queries ==> Consistent(s.queries[r]));
      StaysLinked(s, step, r);
      StaysConsistent(s, step, r);
    }
    hide Apply, Enabled, Consistent, LinkedAt, Flight.Sound;
  }

  lemma StaysConsistent(s: State, step: Step, r: Request)
    requires Local(s, step) && (r in s.queries ==> Consistent(s.queries[r]))
    ensures r in Apply(s, step, On).queries ==> Consistent(Apply(s, step, On).queries[r])
  {
  }

  lemma OthersUnmoved(s: State, step: Step, q: Request)
    requires Local(s, step) && q != step.r
    ensures q in Apply(s, step, On).queries <==> q in s.queries
    ensures q in s.queries ==> Apply(s, step, On).queries[q] == s.queries[q]
  {
  }

  /** Only the request that acts moves between the accounts. */
  lemma OthersKeepAccount(s: State, step: Step, fp: Fingerprint)
    requires Local(s, step)
    ensures var s' := Apply(s, step, On); var r := step.r;
      && Fruits(s', fp) - {r} == Fruits(s, fp) - {r}
      && Active(s', fp) - {r} == Active(s, fp) - {r}
      && Spent(s', fp) - {r} == Spent(s, fp) - {r}
  {
    hide IsFruit, IsActive, IsSpent, Apply;
    forall q | q != step.r
      ensures q in Apply(s, step, On).queries <==> q in s.queries
      ensures q in s.queries ==> Apply(s, step, On).queries[q] == s.queries[q]
    {
      OthersUnmoved(s, step, q);
    }
    hide Enabled;
  }

  lemma SizeAround(a: set<Request>, r: Request)
    ensures |a| == |a - {r}| + if r in a then 1 else 0
  {
    if r in a {
      assert a == (a - {r}) + {r};
    } else {
      assert a - {r} == a;
    }
  }

  lemma SizesAround(s: State, s': State, r: Request, fp: Fingerprint)
    requires Fruits(s', fp) - {r} == Fruits(s, fp) - {r} && Spent(s', fp) - {r} == Spent(s, fp) - {r}
    ensures |Fruits(s', fp)| - |Fruits(s, fp)| == (if r in Fruits(s', fp) then 1 else 0) - (if r in Fruits(s, fp) then 1 else 0)
    ensures |Spent(s', fp)| - |Spent(s, fp)| == (if r in Spent(s', fp) then 1 else 0) - (if r in Spent(s, fp) then 1 else 0)
  {
    hide Fruits, Spent;
    SizeAround(Fruits(s, fp), r);
    SizeAround(Fruits(s', fp), r);
    SizeAround(Spent(s, fp), r);
    SizeAround(Spent(s', fp), r);
  }

  /** At most one request that did not give up is running. */
  lemma OneActive(s: State, fp: Fingerprint, a: Request)
    requires Ordered(s) && a in s.queries && s.queries[a].fingerprint == fp && !s.queries[a].late
    requires s.queries[a].gated && (Running(s.queries[a]) || Flight.Holds(s.gate, a))
    ensures Active(s, fp) <= {a}
  {
    forall b | b in Active(s, fp)
      ensures b == a
    {
      assert LinkedAt(s, a) && LinkedAt(s, b);
      assert Flight.Holds(s.gate, a) && Flight.Holds(s.gate, b);
    }
  }

  /** How the acting request moves between the accounts, and what that does to what is on file. */
  ghost predicate Moves(s: State, s': State, r: Request, fp: Fingerprint) {
    && (r in Fruits(s, fp) ==> r in Fruits(s', fp))
    && (r in Spent(s, fp) ==> r in Spent(s', fp))
    && (r in Fruits(s', fp) && r !in Fruits(s, fp) ==> r in Active(s, fp) && r !in Active(s', fp) && Usable(OnFile(s', fp)))
    && (r in Active(s', fp) && r !in Active(s, fp) ==> Active(s, fp) == {} && !Usable(OnFile(s, fp)))
    && (Usable(OnFile(s, fp)) && !Usable(OnFile(s', fp)) ==> r in Active(s, fp) || (r in Spent(s', fp) && r !in Spent(s, fp)))
    && (r in Active(s, fp) && r !in Active(s', fp) ==> Active(s', fp) == {})
  }

  /** The same, of the request itself. */
  ghost predicate MovesAs(q: Query, q': Query, fp: Fingerprint, before: Option<Recommendation>, after: Option<Recommendation>) {
    && (IsFruit(q, fp) ==> IsFruit(q', fp))
    && (IsSpent(q, fp) ==> IsSpent(q', fp))
    && (IsFruit(q', fp) && !IsFruit(q, fp) ==> IsActive(q, fp) && !IsActive(q', fp) && Usable(after))
    && (IsActive(q', fp) && !IsActive(q, fp) ==> !Usable(before) && q.gated && q.stage == AtGate)
    && (Usable(before) && !Usable(after) ==> IsActive(q, fp) || (IsSpent(q', fp) && !IsSpent(q, fp)))
  }

  lemma ActorMovesAs(s: State, step: Step, fp: Fingerprint)
    requires Local(s, step) && step.r in s.queries && Consistent(s.queries[step.r])
    ensures var s' := Apply(s, step, On);
      step.r in s'.queries && MovesAs(s.queries[step.r], s'.queries[step.r], fp, OnFile(s, fp), OnFile(s', fp))
  {
  }

  /** A request that newly runs holds the gate, so nobody else runs. */
  lemma NewlyActiveAlone(s: State, step: Step, fp: Fingerprint)
    requires Ordered(s) && Local(s, step) && step.r in s.queries && s.queries[step.r].stage == AtGate
    requires IsActive(Apply(s, step, On).queries[step.r], fp)
    ensures Active(s, fp) == {}
  {
    var r := step.r;
    assert LinkedAt(s, r) && Consistent(s.queries[r]);
    OneActive(s, fp, r);
    assert r !in Active(s, fp);
  }

  lemma ActorMoves(s: State, step: Step, fp: Fingerprint)
    requires Ordered(s) && Local(s, step)
    ensures Moves(s, Apply(s, step, On), step.r, fp)
  {
    var s', r := Apply(s, step, On), step.r;
    OthersKeepAccount(s, step, fp);
    if r in s.queries {
      assert Consistent(s.queries[r]);
      ActorMovesAs(s, step, fp);
      if IsActive(s'.queries[r], fp) && !IsActive(s.queries[r], fp) {
        NewlyActiveAlone(s, step, fp);
      }
      if IsActive(s.queries[r], fp) {
        OneActive(s, fp, r);
        assert Active(s', fp) - {r} == {};
      }
      hide Ordered, Apply, Enabled, IsActive, IsFruit, IsSpent, Usable;
    } else {
      Arrives(s, step, fp);
    }
  }

  lemma Arrives(s: State, step: Step, fp: Fingerprint)
    requires Local(s, step) && step.r !in s.queries
    ensures Moves(s, Apply(s, step, On), step.r, fp)
  {
  }

  lemma StaysBalanced(s: State, step: Step, fp: Fingerprint)
    requires Ordered(s) && Local(s, step) && Balanced(s, fp)
    ensures Balanced(Apply(s, step, On), fp)
  {
    hide Apply, Enabled, Ordered, Fruits, Active, Spent, OnFile, Usable;
    var s' := Apply(s, step, On);
    OthersKeepAccount(s, step, fp);
    ActorMoves(s, step, fp);
    SizesAround(s, s', step.r, fp);
    ActiveAround(s, s', step.r, fp);
  }

  lemma ActiveAround(s: State, s': State, r: Request, fp: Fingerprint)
    requires Active(s', fp) - {r} == Active(s, fp) - {r}
    ensures r !in Active(s', fp) && Active(s', fp) != {} ==> Active(s, fp) != {}
    ensures r in Active(s, fp) ==> Active(s, fp) != {}
    ensures r in Active(s', fp) ==> Active(s', fp) != {}
  {
    hide Active;
    if r !in Active(s', fp) && Active(s', fp) != {} {
      var x :| x in Active(s', fp);
      assert x in Active(s', fp) - {r};
    }
  }

  lemma {:induction false} LocalRun(s: State, steps: seq<Step>, fp: Fingerprint)
    requires Ordered(s) && Balanced(s, fp) && Play(s, steps, On).Some?
    requires forall k | 0 <= k < |steps| :: !steps[k].Elsewhere?
    ensures Ordered(Play(s, steps, On).value) && Balanced(Play(s, steps, On).value, fp)
    decreases |steps|
  {
    if steps != [] {
      hide Ordered, Balanced, Apply, Enabled;
      StaysOrdered(s, steps[0]);
      StaysBalanced(s, steps[0], fp);
      LocalRun(Apply(s, steps[0], On), steps[1..], fp);
    }
  }

  /** A timed-out request that is not spent. */
  function AliveLate(s: State, fp: Fingerprint): set<Request> { LateOf(s, fp) - Spent(s, fp) }

  lemma AccountsCover(s: State, fp: Fingerprint)
    ensures ModelRuns(s, fp) <= Fruitless(s, fp) + AliveLate(s, fp) + (Fruits(s, fp) + Active(s, fp))
    ensures Spent(s, fp) <= LateOf(s, fp)
  {
  }

  /** The account at any moment: all but one of the runs begun are paid for. */
  lemma RunsArePaid(s: State, fp: Fingerprint)
    requires Ordered(s) && Balanced(s, fp)
    ensures |ModelRuns(s, fp)| <= 1 + |Fruitless(s, fp)| + |LateOf(s, fp)|
  {
    ActiveSize(s, fp);
    AccountsCover(s, fp);
    hide Ordered, Fruits, Active, Spent, LateOf, ModelRuns, Fruitless;
    Within(ModelRuns(s, fp), Fruitless(s, fp) + AliveLate(s, fp), Fruits(s, fp) + Active(s, fp));
    Within(Fruitless(s, fp) + AliveLate(s, fp), Fruitless(s, fp), AliveLate(s, fp));
    Within(Fruits(s, fp) + Active(s, fp), Fruits(s, fp), Active(s, fp));
    assert LateOf(s, fp) == Spent(s, fp) + AliveLate(s, fp);
  }

  lemma Within(a: set<Request>, b: set<Request>, c: set<Request>)
    requires a <= b + c
    ensures |a| <= |b| + |c|
  {
    assert b + c == b + (c - b);
    assert |b + c| == |b| + |c - b|;
    assert c == (c - b) + (c * b);
    assert (b + c) == a + ((b + c) - a);
  }

  lemma ActiveSize(s: State, fp: Fingerprint)
    requires Ordered(s)
    ensures |Active(s, fp)| <= 1
  {
    if Active(s, fp) != {} {
      var a :| a in Active(s, fp);
      OneActive(s, fp, a);
      assert Active(s, fp) == {a};
    }
  }

  /** With reuse and the gate on, in one process: the runs of the model that gated requests of a fingerprint
      have begun number at most one, plus those that ended without leaving a usable recommendation, plus the
      requests whose wait timed out. When none did, whatever is served from the group is usable. */
  lemma ModelRunsAreBounded(s: State, steps: seq<Step>, fp: Fingerprint, r: Request)
    requires Initial(s) && Play(s, steps, On).Some?
    requires forall k | 0 <= k < |steps| :: !steps[k].Elsewhere?
    ensures var s' := Play(s, steps, On).value; |ModelRuns(s', fp)| <= 1 + |Fruitless(s', fp)| + |LateOf(s', fp)|
    ensures var s' := Play(s, steps, On).value; (forall k | 0 <= k < |steps| :: !steps[k].TimeOut?) ==>
      LateOf(s', fp) == {} && (r in s'.queries && s'.queries[r].outcome.Served? ==> Usable(s'.queries[r].outcome.rec))
  {
    Starts(s);
    assert Fruits(s, fp) == {} && Active(s, fp) == {};
    LocalRun(s, steps, fp);
    RunsArePaid(Play(s, steps, On).value, fp);
    if forall k | 0 <= k < |steps| :: !steps[k].TimeOut? {
      QuietRun(s, steps);
      var s' := Play(s, steps, On).value;
      assert forall q | q in s'.queries :: Agrees(s'.queries[q], OnFile(s', s'.queries[q].fingerprint));
    }
  }

  /** The accounts, in the requests' own terms. */
  lemma AccountsExactly(s: State, fp: Fingerprint, r: Request)
    ensures r in LateOf(s, fp) <==> r in s.queries && s.queries[r].fingerprint == fp && s.queries[r].late
    ensures r in ModelRuns(s, fp) <==> r in s.queries && s.queries[r].fingerprint == fp && RanModel(s.queries[r])
    ensures r in Fruitless(s, fp) <==>
      && r in ModelRuns(s, fp) && !(s.queries[r].stage == Treating && s.queries[r].decision.Llm?)
      && !(&& s.queries[r].outcome.Ran? && s.queries[r].outcome.result.Produced?
           && !s.queries[r].outcome.result.withheld && s.queries[r].outcome.result.stored
           && s.queries[r].decision.Llm? && s.queries[r].verdict in {Corroborated, Unverifiable}
           && !s.queries[r].outcome.result.finding.discrepancy && !s.queries[r].outcome.result.finding.contradicted)
  {
    if r in s.queries {
      EitherWay(s.queries[r].verdict);
    }
  }

  /** A gated request with the model running for it. */
  predicate RunsGated(s: State, r: Request) {
    r in s.queries && s.queries[r].gated && s.queries[r].stage == Treating && s.queries[r].decision.Llm?
  }

  lemma StepRuns(was: State, step: Step, cfg: Config, r: Request)
    requires Enabled(was, step, cfg) && (r in was.queries ==> GateKnown(was.queries[r], cfg))
    ensures var now := Apply(was, step, cfg);
      r in now.queries && RanModel(now.queries[r]) <==> (r in was.queries && RanModel(was.queries[r])) || RunsGated(now, r)
    ensures var now := Apply(was, step, cfg);
      r in now.queries && now.queries[r].late <==> (r in was.queries && was.queries[r].late) || step == TimeOut(r)
  {
  }

  /** A request counts as a run of the model exactly when at some moment the model was running for it behind
      the gate, and as late exactly when its wait timed out at some step. */
  lemma {:induction false} RunsExactly(s: State, steps: seq<Step>, cfg: Config, r: Request)
    requires Initial(s) && Play(s, steps, cfg).Some?
    ensures var now := Play(s, steps, cfg).value;
      r in now.queries && RanModel(now.queries[r]) <==>
        exists k | 0 <= k <= |steps| :: Play(s, steps[..k], cfg).Some? && RunsGated(Play(s, steps[..k], cfg).value, r)
    ensures var now := Play(s, steps, cfg).value;
      r in now.queries && now.queries[r].late <==> exists k | 0 <= k < |steps| :: steps[k] == TimeOut(r)
    decreases |steps|
  {
    assert steps[..|steps|] == steps;
    if steps == [] {
      assert Play(s, steps[..0], cfg) == Some(s);
    } else {
      var n := |steps| - 1;
      var init, step := steps[..n], steps[n];
      assert steps == init + [step];
      Machines.LastStep(Next(cfg), s, init, step);
      var was := Play(s, init, cfg).value;
      assert Enabled(was, step, cfg) && Play(s, steps, cfg).value == Apply(was, step, cfg);
      RunGateKnown(s, init, cfg, r);
      RunsExactly(s, init, cfg, r);
      StepRuns(was, step, cfg, r);
      hide Play, RunsGated, RanModel, Enabled, Apply;
      assert forall k | 0 <= k <= n :: init[..k] == steps[..k];
      assert forall k | 0 <= k < n :: init[k] == steps[k];
    }
  }

  /** Once something usable is on file, no gated request runs the model again. */
  lemma ServedOnceUsable(s: State, steps: seq<Step>, fp: Fingerprint, r: Request)
    requires Initial(s) && Play(s, steps, On).Some?
    requires forall k | 0 <= k < |steps| :: !steps[k].TimeOut? && !steps[k].Elsewhere?
    ensures var s' := Play(s, steps, On).value;
      Usable(OnFile(s', fp)) && r in s'.queries && s'.queries[r].fingerprint == fp ==> !Running(s'.queries[r])
  {
    Starts(s);
    QuietRun(s, steps);
    var s' := Play(s, steps, On).value;
    assert r in s'.queries ==> Agrees(s'.queries[r], OnFile(s', s'.queries[r].fingerprint));
  }

  // ---------------------------------------------------------------------
  // What a timed-out wait costs
  // ---------------------------------------------------------------------

  lemma Begin(s: State) returns (steps: seq<Step>, now: State)
    ensures Play(s, steps, On) == Some(now) && now == s && steps == []
  {
    steps, now := [], s;
  }

  lemma Then(s: State, steps: seq<Step>, step: Step, now: State) returns (more: seq<Step>, next: State)
    requires Play(s, steps, On) == Some(now) && Enabled(now, step, On)
    ensures Play(s, more, On) == Some(next) && next == Apply(now, step, On) && more == steps + [step]
  {
    more, next := Machines.Then(Next(On), s, steps, now, step);
  }

  predicate RunsFor(s: State, r: Request, fp: Fingerprint) {
    && At(s, r, Treating) && s.queries[r].fingerprint == fp
    && s.queries[r].decision.Llm? && s.queries[r].verdict == Corroborated
  }

  predicate WaitsFor(s: State, r: Request, fp: Fingerprint) {
    && At(s, r, AtGate) && s.queries[r].fingerprint == fp && s.queries[r].business && s.queries[r].verdict == Corroborated
    && !Usable(s.queries[r].group) && Flight.MayAcquire(s.gate, r)
  }

  /** Requests 0 and 1 are both in the gate of one fingerprint, and nobody holds it. */
  lemma BothWait() returns (s: State, steps: seq<Step>, now: State)
    ensures Initial(s) && Play(s, steps, On) == Some(now)
    ensures WaitsFor(now, 0, "f") && WaitsFor(now, 1, "f") && 2 !in now.queries && OnFile(now, "f").None?
  {
    hide Play;
    s := State(map[], Flight.Gate(map[], map[], map[]), map[]);
    steps, now := Begin(s);
    steps, now := Then(s, steps, Arrive(0, "f", true, Corroborated), now);
    steps, now := Then(s, steps, Arrive(1, "f", true, Corroborated), now);
    steps, now := Then(s, steps, Enter(0, 0), now);
    steps, now := Then(s, steps, Enter(1, 0), now);
  }

  /** Request 1 gives up waiting for request 0: both run the model. */
  lemma BothRun() returns (s: State, steps: seq<Step>, now: State)
    ensures Initial(s) && Play(s, steps, On) == Some(now)
    ensures RunsFor(now, 0, "f") && RunsFor(now, 1, "f") && 2 !in now.queries
  {
    hide Play, Initial;
    s, steps, now := BothWait();
    steps, now := Then(s, steps, Acquire(0), now);
    steps, now := Then(s, steps, TimeOut(1), now);
    steps, now := Then(s, steps, Reread(0), now);
    steps, now := Then(s, steps, Reread(1), now);
  }

  /** Then request 1 replaces the usable finding of request 0 with one that explains a discrepancy.
      Request 2 had decided to reuse by then, reads the group again when its code check is attached,
      does not decide again, and is served the finding that may not be served. */
  lemma TimedOutWaitMisserves() returns (s: State, steps: seq<Step>)
    ensures Initial(s) && Play(s, steps, On).Some?
    ensures var s' := Play(s, steps, On).value;
      2 in s'.queries && s'.queries[2].outcome.Served? && !Usable(s'.queries[2].outcome.rec)
  {
    hide Play;
    var now;
    s, steps, now := BothRun();
    steps, now := Then(s, steps, Treat(0, Produced(Finding("a", false, false), false, true)), now);
    steps, now := Then(s, steps, Arrive(2, "f", true, Corroborated), now);
    steps, now := Then(s, steps, Treat(1, Produced(Finding("b", true, false), false, true)), now);
    steps, now := Then(s, steps, Refresh(2), now);
    steps, now := Then(s, steps, Bypass(2), now);
    steps, now := Then(s, steps, Treat(2, NoFinding), now);
  }

  /** No wait times out: another process replaces the recommendation between the decision of request 0 and
      the read after its code check, and request 0 is served what may not be served. */
  lemma OtherWriterMisserves() returns (s: State, steps: seq<Step>)
    ensures Initial(s) && Play(s, steps, On).Some? && forall k | 0 <= k < |steps| :: !steps[k].TimeOut?
    ensures var s' := Play(s, steps, On).value;
      0 in s'.queries && s'.queries[0].outcome.Served? && !Usable(s'.queries[0].outcome.rec)
  {
    var good := Recommendation(Finding("a", false, false), Draft, None);
    s := State(map["f" := good], Flight.Gate(map[], map[], map[]), map[]);
    hide Play;
    var now;
    steps, now := Begin(s);
    steps, now := Then(s, steps, Arrive(0, "f", true, Corroborated), now);
    steps, now := Then(s, steps, Elsewhere("f", good.(corroboration := Some(Partial))), now);
    steps, now := Then(s, steps, Refresh(0), now);
    steps, now := Then(s, steps, Bypass(0), now);
    steps, now := Then(s, steps, Treat(0, NoFinding), now);
  }
}
