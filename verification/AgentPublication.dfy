/** Lock-free readers of the agent graph against serialised rebuilds: `get_agent` and the end of
    `_build_agent` in src/core/agent_orchestrator.py, with the order of publication as a parameter. */
module AgentPublication {
  import opened Options
  import Machines

  type Revision = string

  /** The three module globals: `_agent`, `_agent_catalog`, `_agent_prompts`. */
  datatype Global = Graph | Catalog | Prompts

  /** The order in which a build assigns them: each once. */
  type Order = seq<Global>

  predicate IsOrder(order: Order) { |order| == 3 && Graph in order && Catalog in order && Prompts in order }

  /** Where a reader is: the revision taken, the graph seen, the catalog found not stale, the prompts
      found to match, and the graph returned, with the builds the two checks were made against.
      A reader that took the lock goes by what is there then, and expects nothing. */
  datatype Reader =
    | Begun(expects: Revision)
    | SawGraph(expects: Revision)
    | SawCatalog(expects: Revision, catalog: nat)
    | Validated(expects: Revision, catalog: nat, prompts: nat)
    | Returned(took: Option<Revision>, catalog: nat, prompts: nat, graph: nat)

  /** For each global the build that wrote it, 0 for none; the revision each build was made from; how
      many globals the build in progress has assigned; and the readers. */
  datatype State = State(holds: map<Global, nat>, revisions: seq<Revision>, building: Option<nat>, readers: map<nat, Reader>)

  datatype Step =
    | StartBuild(revision: Revision)
    | Publish
    | Abandon
    | Begin(r: nat, revision: Revision)
    | SeeGraph(r: nat)
    | SeeCatalog(r: nat)
    | SeePrompts(r: nat)
    | Return(r: nat)
    | UnderLock(r: nat)

  predicate Whole(s: State) { s.holds.Keys == {Graph, Catalog, Prompts} }

  /** The revision behind `_agent_prompts`. */
  function RevisionAt(s: State): Revision
    requires Whole(s)
  {
    if 0 < s.holds[Prompts] <= |s.revisions| then s.revisions[s.holds[Prompts] - 1] else ""
  }

  predicate Enabled(s: State, step: Step, order: Order) {
    && Whole(s)
    && match step
       case StartBuild(_) => s.building.None?
       case Publish => s.building.Some? && s.building.value < |order| && order[s.building.value] in s.holds
       case Abandon => s.building.Some?
       case Begin(r, _) => r !in s.readers
       case SeeGraph(r) => r in s.readers && s.readers[r].Begun? && s.holds[Graph] > 0
       case SeeCatalog(r) => r in s.readers && s.readers[r].SawGraph?
       case SeePrompts(r) => r in s.readers && s.readers[r].SawCatalog? && RevisionAt(s) == s.readers[r].expects
       case Return(r) => r in s.readers && s.readers[r].Validated?
       case UnderLock(r) => r in s.readers && !s.readers[r].Returned? && s.building.None? && s.holds[Graph] > 0
  }

  /** Reading a global reads what it holds at that moment: a reader that validated returns the graph
      that is there when it returns. A build holds the lock, so a reader that took the lock reads all
      three at once. */
  function Apply(s: State, step: Step, order: Order): State
    requires Enabled(s, step, order)
  {
    match step
    case StartBuild(revision) => s.(revisions := s.revisions + [revision], building := Some(0))
    case Publish =>
      var k := s.building.value;
      s.(holds := s.holds[order[k] := |s.revisions|], building := if k + 1 == |order| then None else Some(k + 1))
    case Abandon => s.(building := None)
    case Begin(r, revision) => s.(readers := s.readers[r := Begun(revision)])
    case SeeGraph(r) => s.(readers := s.readers[r := SawGraph(s.readers[r].expects)])
    case SeeCatalog(r) => s.(readers := s.readers[r := SawCatalog(s.readers[r].expects, s.holds[Catalog])])
    case SeePrompts(r) => s.(readers := s.readers[r := Validated(s.readers[r].expects, s.readers[r].catalog, s.holds[Prompts])])
    case Return(r) => s.(readers := s.readers[r := Returned(Some(s.readers[r].expects), s.readers[r].catalog, s.readers[r].prompts, s.holds[Graph])])
    case UnderLock(r) => s.(readers := s.readers[r := Returned(None, s.holds[Catalog], s.holds[Prompts], s.holds[Graph])])
  }

  const Start: State := State(map[Graph := 0, Catalog := 0, Prompts := 0], [], None, map[])

  function Next(order: Order): (State, Step) -> Option<State> {
    (s: State, step: Step) => if Enabled(s, step, order) then Some(Apply(s, step, order)) else None
  }

  function Play(s: State, steps: seq<Step>, order: Order): Option<State> { Machines.After(Next(order), s, steps) }

  /** A returned graph is no older than what the reader validated. */
  predicate NoOlder(r: Reader) { r.Returned? ==> r.graph >= r.catalog && r.graph >= r.prompts }

  predicate Safe(s: State) { forall r | r in s.readers :: NoOlder(s.readers[r]) }

  // ---------------------------------------------------------------------
  // Graph first
  // ---------------------------------------------------------------------

  /** What a reader has validated so far is no newer than the graph on display. */
  predicate Covered(r: Reader, graph: nat) {
    match r
    case SawCatalog(_, catalog) => catalog <= graph
    case Validated(_, catalog, prompts) => catalog <= graph && prompts <= graph
    case _ => NoOlder(r)
  }

  predicate GraphLeads(s: State) {
    && Whole(s) && s.holds[Catalog] <= s.holds[Graph] && s.holds[Prompts] <= s.holds[Graph] <= |s.revisions|
    && (s.building.Some? && s.building.value > 0 ==> s.holds[Graph] == |s.revisions|)
    && forall r | r in s.readers :: Covered(s.readers[r], s.holds[Graph])
  }

  lemma StaysAhead(s: State, step: Step, order: Order)
    requires IsOrder(order) && order[0] == Graph && GraphLeads(s) && Enabled(s, step, order)
    ensures GraphLeads(Apply(s, step, order))
  {
  }

  lemma {:induction false} RunStaysAhead(s: State, steps: seq<Step>, order: Order)
    requires IsOrder(order) && order[0] == Graph && GraphLeads(s) && Play(s, steps, order).Some?
    ensures GraphLeads(Play(s, steps, order).value)
    decreases |steps|
  {
    if steps != [] {
      StaysAhead(s, steps[0], order);
      RunStaysAhead(Apply(s, steps[0], order), steps[1..], order);
    }
  }

  // ---------------------------------------------------------------------
  // What a reader is handed at all, whatever the order
  // ---------------------------------------------------------------------

  /** The prompts validated are those of the revision the reader took: of the build that wrote them, or none. */
  predicate Matched(revisions: seq<Revision>, prompts: nat, expects: Revision) {
    if prompts == 0 then expects == "" else prompts <= |revisions| && revisions[prompts - 1] == expects
  }

  predicate Served(s: State, r: Reader)
    requires Whole(s)
  {
    match r
    case SawGraph(_) => s.holds[Graph] > 0
    case SawCatalog(_, _) => s.holds[Graph] > 0
    case Validated(expects, _, prompts) => s.holds[Graph] > 0 && Matched(s.revisions, prompts, expects)
    case Returned(took, _, prompts, graph) => graph > 0 && (took.Some? ==> Matched(s.revisions, prompts, took.value))
    case _ => true
  }

  predicate AllServed(s: State) {
    && Whole(s) && s.holds[Prompts] <= |s.revisions| && (s.building.Some? ==> s.revisions != [])
    && forall r | r in s.readers :: Served(s, s.readers[r])
  }

  lemma StaysServed(s: State, step: Step, order: Order)
    requires AllServed(s) && Enabled(s, step, order)
    ensures AllServed(Apply(s, step, order))
  {
  }

  lemma {:induction false} RunStaysServed(s: State, steps: seq<Step>, order: Order)
    requires AllServed(s) && Play(s, steps, order).Some?
    ensures AllServed(Play(s, steps, order).value)
    decreases |steps|
  {
    if steps != [] {
      hide Enabled, Apply, AllServed;
      StaysServed(s, steps[0], order);
      RunStaysServed(Apply(s, steps[0], order), steps[1..], order);
    }
  }

  /** What a reader that begins with a revision and never takes the lock carries with it. */
  predicate Carries(s: State, r: nat, revision: Revision) {
    r in s.readers &&
    match s.readers[r]
    case Begun(expects) => expects == revision
    case SawGraph(expects) => expects == revision
    case SawCatalog(expects, _) => expects == revision
    case Validated(expects, _, _) => expects == revision
    case Returned(took, _, _, _) => took == Some(revision)
  }

  lemma {:induction false} RunCarries(s: State, steps: seq<Step>, order: Order, r: nat, revision: Revision)
    requires Play(s, steps, order).Some? && Carries(s, r, revision) && forall k | 0 <= k < |steps| :: steps[k] != UnderLock(r)
    ensures Carries(Play(s, steps, order).value, r, revision)
    decreases |steps|
  {
    if steps != [] {
      assert steps[0] != UnderLock(r);
      RunCarries(Apply(s, steps[0], order), steps[1..], order, r, revision);
    }
  }

  /** In every interleaving, whatever the order: a reader is handed a graph that was built, and one that began
      with a revision and never took the lock has validated prompts that were built from it. */
  lemma ReturnedIsMatched(before: seq<Step>, r: nat, revision: Revision, after: seq<Step>, order: Order)
    requires Play(Start, before, order).Some? && Enabled(Play(Start, before, order).value, Begin(r, revision), order)
    requires Play(Apply(Play(Start, before, order).value, Begin(r, revision), order), after, order).Some?
    requires forall k | 0 <= k < |after| :: after[k] != UnderLock(r)
    ensures var s := Play(Apply(Play(Start, before, order).value, Begin(r, revision), order), after, order).value;
      && r in s.readers
      && (s.readers[r].Returned? ==>
            && s.readers[r].graph > 0
            && if s.readers[r].prompts == 0 then revision == ""
               else s.readers[r].prompts <= |s.revisions| && s.revisions[s.readers[r].prompts - 1] == revision)
  {
    RunStaysServed(Start, before, order);
    var was := Play(Start, before, order).value;
    StaysServed(was, Begin(r, revision), order);
    var begun := Apply(was, Begin(r, revision), order);
    RunStaysServed(begun, after, order);
    RunCarries(begun, after, order, r, revision);
    var s := Play(begun, after, order).value;
    assert Served(s, s.readers[r]);
  }

  // ---------------------------------------------------------------------
  // Anything else first
  // ---------------------------------------------------------------------

  lemma Then(steps: seq<Step>, now: State, step: Step, order: Order) returns (more: seq<Step>, next: State)
    requires Play(Start, steps, order) == Some(now) && Enabled(now, step, order)
    ensures Play(Start, more, order) == Some(next) && next == Apply(now, step, order)
  {
    more, next := Machines.Then(Next(order), Start, steps, now, step);
  }

  lemma Nothing(order: Order) returns (steps: seq<Step>, now: State)
    ensures Play(Start, steps, order) == Some(now) && now == Start
  {
    steps, now := [], Start;
  }

  /** One whole build. */
  lemma BuiltOnce(order: Order) returns (steps: seq<Step>, now: State)
    requires IsOrder(order)
    ensures Play(Start, steps, order) == Some(now)
    ensures now == State(map[Graph := 1, Catalog := 1, Prompts := 1], ["p"], None, map[])
  {
    hide Play;
    steps, now := Nothing(order);
    steps, now := Then(steps, now, StartBuild("p"), order);
    steps, now := Then(steps, now, Publish, order);
    steps, now := Then(steps, now, Publish, order);
    steps, now := Then(steps, now, Publish, order);
    assert order == [order[0], order[1], order[2]];
    assert now.holds == map[Graph := 1, Catalog := 1, Prompts := 1];
  }

  /** When a build assigns the catalog or the prompts before the graph, a reader that comes by in
      between validates the new one and is handed the old graph. */
  lemma StaleGraphReturned(order: Order) returns (steps: seq<Step>, now: State)
    requires IsOrder(order) && order[0] != Graph
    ensures Play(Start, steps, order) == Some(now) && !Safe(now)
  {
    hide Play;
    steps, now := BuiltOnce(order);
    steps, now := Then(steps, now, StartBuild("p"), order);
    steps, now := Then(steps, now, Publish, order);
    steps, now := Then(steps, now, Begin(0, "p"), order);
    steps, now := Then(steps, now, SeeGraph(0), order);
    steps, now := Then(steps, now, SeeCatalog(0), order);
    steps, now := Then(steps, now, SeePrompts(0), order);
    steps, now := Then(steps, now, Return(0), order);
    assert 0 in now.readers && !NoOlder(now.readers[0]);
  }

  /** In every interleaving of readers with rebuilds a returned graph was built no earlier than the
      catalog and the prompts its reader validated, if and only if a build assigns the graph first. */
  lemma SafeExactlyWhenGraphFirst(order: Order)
    requires IsOrder(order)
    ensures (forall steps :: Play(Start, steps, order).Some? ==> Safe(Play(Start, steps, order).value)) <==> order[0] == Graph
  {
    if order[0] == Graph {
      forall steps | Play(Start, steps, order).Some?
        ensures Safe(Play(Start, steps, order).value)
      {
        RunStaysAhead(Start, steps, order);
        var s := Play(Start, steps, order).value;
        assert forall r | r in s.readers :: Covered(s.readers[r], s.holds[Graph]);
      }
    } else {
      var steps, now := StaleGraphReturned(order);
    }
  }

  /** The rejection lane: graph, catalog, prompts. */
  const RejectionLane: Order := [Graph, Catalog, Prompts]

  /** The dead-letter lane: the catalog is assigned before the graph is built. */
  const DeadLetterLane: Order := [Catalog, Graph, Prompts]

  lemma RejectionLaneIsSafe(steps: seq<Step>)
    requires Play(Start, steps, RejectionLane).Some?
    ensures Safe(Play(Start, steps, RejectionLane).value)
  {
    SafeExactlyWhenGraphFirst(RejectionLane);
  }

  lemma DeadLetterLaneIsNot() returns (steps: seq<Step>)
    ensures Play(Start, steps, DeadLetterLane).Some? && !Safe(Play(Start, steps, DeadLetterLane).value)
  {
    var now;
    steps, now := StaleGraphReturned(DeadLetterLane);
  }
}
