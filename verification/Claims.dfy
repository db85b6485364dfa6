/** One analysis per dead-letter record: the create-only claim with takeover of src/dlt/claims.py and
    the holder check of the analysis lane in src/api/dlt_routes.py. */
module Claims {
  import opened Options

  type Ref = string
  type Time = real

  /** The stored claim of a record. A document that names nobody has the empty reference. */
  datatype Claim = Claim(holder: Ref, at: Time)

  datatype Outcome = Won | SameDelivery | Reclaimed | Duplicate | Disabled

  predicate IsWin(o: Outcome) { o != Duplicate }

  /** The claim as read back: nothing stored reads as a document that names nobody. */
  function ReadBack(claim: Option<Claim>): Claim { if claim.Some? then claim.value else Claim("", 0.0) }

  /** The analysis lane proceeds when nobody holds the record or its own delivery does. */
  predicate MayAnalyse(claim: Option<Claim>, ref: Ref) { ReadBack(claim).holder in {"", ref} }

  /** A record nobody has claimed, or whose claim names nobody, may be analysed by every delivery. */
  lemma UnclaimedMayBeAnalysed(claim: Option<Claim>, ref: Ref)
    ensures MayAnalyse(claim, ref) <==> claim.None? || claim.value.holder == "" || claim.value.holder == ref
  {
  }

  /** What a delivery that could not create the claim does about the one it read. */
  datatype Response = Join | GiveWay | TakeOver

  function Respond(seen: Claim, finished: bool, ref: Ref, at: Time, ttl: Time): Response {
    if seen.holder == ref then Join
    else if seen.holder != "" && finished then GiveWay
    else if seen.holder == "" || at - seen.at > ttl then TakeOver
    else GiveWay
  }

  // ---------------------------------------------------------------------
  // One uninterrupted attempt
  // ---------------------------------------------------------------------

  /** The claim and the outcome after an attempt nobody interferes with. */
  function Attempt(claim: Option<Claim>, finished: set<Ref>, ref: Ref, now: Time, ttl: Time): (Claim, Outcome) {
    if claim.None? then (Claim(ref, now), Won)
    else
      match Respond(claim.value, claim.value.holder in finished, ref, now, ttl)
      case Join => (claim.value, SameDelivery)
      case GiveWay => (claim.value, Duplicate)
      case TakeOver => (Claim(ref, now), Reclaimed)
  }

  /** An attempt wins exactly when its reference may be analysed afterwards: when nobody held the record,
      when it was the holder already, or when the holder had neither finished nor been renewed in time. */
  lemma WinsExactly(claim: Option<Claim>, finished: set<Ref>, ref: Ref, now: Time, ttl: Time)
    requires ref != ""
    ensures var (after, outcome) := Attempt(claim, finished, ref, now, ttl);
      && (IsWin(outcome) <==> MayAnalyse(Some(after), ref))
      && (IsWin(outcome) <==> claim.None? || claim.value.holder in {"", ref}
                              || (claim.value.holder !in finished && now > claim.value.at + ttl))
      && (!IsWin(outcome) ==> claim == Some(after))
  {
  }

  /** The claim store: one document per record. */
  class ClaimStore {
    var claims: map<string, Claim>

    constructor ()
      ensures claims == map[]
    {
      claims := map[];
    }

    function At(case_: string): Option<Claim>
      reads this
    {
      if case_ in claims then Some(claims[case_]) else None
    }

    method Create(case_: string, claim: Claim) returns (created: bool)
      modifies this
      ensures created == (old(At(case_)) == None)
      ensures claims == if created then old(claims)[case_ := claim] else old(claims)
    {
      created := case_ !in claims;
      if created {
        claims := claims[case_ := claim];
      }
    }

    /** Takes the claim on a record for `ref`, or reports who holds it. */
    method ClaimCase(enabled: bool, case_: string, ref: Ref, now: Time, ttl: Time, finished: set<Ref>)
      returns (outcome: Outcome, holder: Ref)
      modifies this
      ensures !enabled ==> outcome == Disabled && claims == old(claims)
      ensures enabled ==> case_ in claims && (claims[case_], outcome) == Attempt(old(At(case_)), finished, ref, now, ttl)
      ensures enabled ==> claims.Keys == old(claims).Keys + {case_}
      ensures enabled ==> forall c | c in old(claims) && c != case_ :: claims[c] == old(claims)[c]
      ensures enabled ==> holder == claims[case_].holder
    {
      if !enabled {
        return Disabled, "";
      }
      var created := Create(case_, Claim(ref, now));
      if created {
        return Won, ref;
      }
      var existing := claims[case_];
      holder := existing.holder;
      if holder == ref {
        return SameDelivery, holder;
      }
      if holder != "" && holder in finished {
        return Duplicate, holder;
      }
      var age := now - existing.at;
      if holder == "" || age > ttl {
        claims := claims[case_ := Claim(ref, now)];
        return Reclaimed, ref;
      }
      return Duplicate, holder;
    }
  }

  // ---------------------------------------------------------------------
  // Deliveries of one record, interleaved
  // ---------------------------------------------------------------------

  /** How far a delivery is: before its create, before its read, before the finished check, before the
      overwrite, and through. `at` is the time it read when it began. */
  datatype Phase =
    | Begun(at: Time)
    | Refused(at: Time)
    | Read(at: Time, seen: Claim)
    | Taking(at: Time, seen: Claim)
    | Through(outcome: Outcome)

  datatype Delivery = Delivery(ref: Ref, phase: Phase)

  datatype State = State(clock: Time, claim: Option<Claim>, finished: set<Ref>, deliveries: map<nat, Delivery>)

  datatype Step =
    | Tick(clock: Time)
    | Begin(id: nat, ref: Ref)
    | TryCreate(id: nat)
    | Load(id: nat)
    | Examine(id: nat)
    | Save(id: nat)
    | Finish(ref: Ref)

  predicate At(s: State, id: nat, isPhase: Phase -> bool) { id in s.deliveries && isPhase(s.deliveries[id].phase) }

  predicate Enabled(s: State, step: Step) {
    match step
    case Tick(clock) => s.clock <= clock
    case Begin(id, ref) => id !in s.deliveries && ref != ""
    case TryCreate(id) => At(s, id, (p: Phase) => p.Begun?)
    case Load(id) => At(s, id, (p: Phase) => p.Refused?)
    case Examine(id) => At(s, id, (p: Phase) => p.Read?)
    case Save(id) => At(s, id, (p: Phase) => p.Taking?)
    case Finish(ref) => true
  }

  function Moved(s: State, id: nat, phase: Phase): State
    requires id in s.deliveries
  {
    s.(deliveries := s.deliveries[id := s.deliveries[id].(phase := phase)])
  }

  function Apply(s: State, step: Step, ttl: Time): State
    requires Enabled(s, step)
  {
    match step
    case Tick(clock) => s.(clock := clock)
    case Begin(id, ref) => s.(deliveries := s.deliveries[id := Delivery(ref, Begun(s.clock))])
    case TryCreate(id) =>
      var d := s.deliveries[id];
      if s.claim.None? then Moved(s.(claim := Some(Claim(d.ref, d.phase.at))), id, Through(Won))
      else Moved(s, id, Refused(d.phase.at))
    case Load(id) =>
      var d := s.deliveries[id];
      if ReadBack(s.claim).holder == d.ref then Moved(s, id, Through(SameDelivery))
      else Moved(s, id, Read(d.phase.at, ReadBack(s.claim)))
    case Examine(id) =>
      var d := s.deliveries[id];
      if Respond(d.phase.seen, d.phase.seen.holder in s.finished, d.ref, d.phase.at, ttl) == TakeOver
      then Moved(s, id, Taking(d.phase.at, d.phase.seen))
      else Moved(s, id, Through(Duplicate))
    case Save(id) =>
      var d := s.deliveries[id];
      Moved(s.(claim := Some(Claim(d.ref, d.phase.at))), id, Through(Reclaimed))
    case Finish(ref) => s.(finished := s.finished + {ref})
  }

  predicate Initial(s: State) { s.claim.None? && s.deliveries == map[] }

  /** `states[i]` is the state before `steps[i]`. */
  ghost predicate Trace(states: seq<State>, steps: seq<Step>, ttl: Time) {
    && |states| == |steps| + 1
    && forall i | 0 <= i < |steps| :: Enabled(states[i], steps[i]) && states[i + 1] == Apply(states[i], steps[i], ttl)
  }

  ghost predicate Run(states: seq<State>, steps: seq<Step>, ttl: Time) { Trace(states, steps, ttl) && Initial(states[0]) }

  predicate Wins(s: State, id: nat) {
    id in s.deliveries && s.deliveries[id].phase.Through? && IsWin(s.deliveries[id].phase.outcome)
  }

  // ---------------------------------------------------------------------
  // Without a takeover one reference wins
  // ---------------------------------------------------------------------

  ghost predicate HolderWon(s: State) {
    && (forall id | Wins(s, id) :: s.claim.Some? && s.claim.value.holder == s.deliveries[id].ref)
    && (s.claim.Some? ==> s.claim.value.holder != "")
    && (forall id | id in s.deliveries :: s.deliveries[id].ref != "")
  }

  lemma KeepsHolder(s: State, step: Step, ttl: Time)
    requires Enabled(s, step) && HolderWon(s) && !step.Save?
    ensures HolderWon(Apply(s, step, ttl))
    ensures s.claim.Some? ==> Apply(s, step, ttl).claim == s.claim
  {
  }

  lemma {:induction false} HeldSince(states: seq<State>, steps: seq<Step>, ttl: Time, i: nat, j: nat)
    requires Run(states, steps, ttl) && i <= j < |states|
    requires forall k | 0 <= k < |steps| :: !steps[k].Save?
    ensures HolderWon(states[j]) && (states[i].claim.Some? ==> states[j].claim == states[i].claim)
    decreases j
  {
    if j > 0 {
      HeldSince(states, steps, ttl, if i < j then i else j - 1, j - 1);
      KeepsHolder(states[j - 1], steps[j - 1], ttl);
    }
  }

  /** In a run without a takeover all winning deliveries carry one reference, and once the record is
      claimed exactly that reference passes the analysis check. */
  lemma OneWinner(states: seq<State>, steps: seq<Step>, ttl: Time, i: nat, j: nat, a: nat, b: nat, ref: Ref)
    requires Run(states, steps, ttl) && i < |states| && j < |states|
    requires forall k | 0 <= k < |steps| :: !steps[k].Save?
    requires Wins(states[i], a) && Wins(states[j], b)
    ensures states[i].deliveries[a].ref == states[j].deliveries[b].ref
    ensures MayAnalyse(states[j].claim, ref) <==> ref == states[i].deliveries[a].ref
  {
    hide Run;
    if i <= j {
      HeldSince(states, steps, ttl, i, i);
      HeldSince(states, steps, ttl, i, j);
    } else {
      HeldSince(states, steps, ttl, j, j);
      HeldSince(states, steps, ttl, j, i);
    }
  }

  // ---------------------------------------------------------------------
  // What a takeover has seen
  // ---------------------------------------------------------------------

  /** Delivery `id` read the claim `seen` at step `l`, having begun at time `at`. */
  ghost predicate SawAt(states: seq<State>, steps: seq<Step>, id: nat, ref: Ref, at: Time, seen: Claim, b: nat, l: nat) {
    && b < l < |steps| && |states| == |steps| + 1
    && steps[b] == Begin(id, ref) && states[b].clock == at
    && steps[l] == Load(id) && states[l].claim == Some(seen) && seen.holder !in {"", ref}
  }

  /** And at step `e` it found the holder unfinished and the claim older than the limit. */
  ghost predicate FoundStale(states: seq<State>, steps: seq<Step>, id: nat, at: Time, seen: Claim, l: nat, e: nat, ttl: Time) {
    && l < e < |steps| && |states| == |steps| + 1
    && steps[e] == Examine(id) && seen.holder !in states[e].finished && at - seen.at > ttl
  }

  ghost predicate Begins(states: seq<State>, steps: seq<Step>, d: Delivery, id: nat, b: nat, n: nat) {
    && b < n <= |steps| && |states| == |steps| + 1
    && steps[b] == Begin(id, d.ref) && !d.phase.Through? && states[b].clock == d.phase.at
  }

  /** What the phase of a delivery says about the first `n` steps. */
  ghost predicate Explained(states: seq<State>, steps: seq<Step>, n: nat, id: nat, ttl: Time)
    requires n < |states|
  {
    id in states[n].deliveries && !states[n].deliveries[id].phase.Through? ==>
      var d := states[n].deliveries[id];
      match d.phase
      case Begun(_) => exists b: nat :: Begins(states, steps, d, id, b, n)
      case Refused(_) => states[n].claim.Some? && exists b: nat :: Begins(states, steps, d, id, b, n)
      case Read(at, seen) => exists b: nat, l: nat :: l < n && SawAt(states, steps, id, d.ref, at, seen, b, l)
      case Taking(at, seen) => exists b: nat, l: nat, e: nat ::
        e < n && SawAt(states, steps, id, d.ref, at, seen, b, l) && FoundStale(states, steps, id, at, seen, l, e, ttl)
      case Through(_) => true
  }

  ghost predicate NamedClaims(s: State) {
    (s.claim.Some? ==> s.claim.value.holder != "") && forall id | id in s.deliveries :: s.deliveries[id].ref != ""
  }

  lemma {:induction false} ClaimsAreNamed(states: seq<State>, steps: seq<Step>, ttl: Time, n: nat)
    requires Run(states, steps, ttl) && n < |states|
    ensures NamedClaims(states[n])
  {
    if n > 0 {
      ClaimsAreNamed(states, steps, ttl, n - 1);
    }
  }

  /** A step of another delivery, or of nobody, leaves the delivery where it was. */
  predicate Concerns(step: Step, id: nat) {
    match step
    case Tick(_) => false
    case Finish(_) => false
    case _ => step.id == id
  }

  lemma OthersStay(s: State, step: Step, id: nat, ttl: Time)
    requires Enabled(s, step) && !Concerns(step, id)
    ensures id in Apply(s, step, ttl).deliveries <==> id in s.deliveries
    ensures id in s.deliveries ==> Apply(s, step, ttl).deliveries[id] == s.deliveries[id]
    ensures s.claim.Some? ==> Apply(s, step, ttl).claim.Some?
  {
  }

  lemma StillExplained(states: seq<State>, steps: seq<Step>, ttl: Time, n: nat, id: nat)
    requires 0 < n < |states| && |states| == |steps| + 1
    requires Explained(states, steps, n - 1, id, ttl)
    requires id in states[n].deliveries <==> id in states[n - 1].deliveries
    requires id in states[n].deliveries ==> states[n].deliveries[id] == states[n - 1].deliveries[id]
    requires states[n - 1].claim.Some? ==> states[n].claim.Some?
    ensures Explained(states, steps, n, id, ttl)
  {
    if id in states[n].deliveries {
      var d := states[n].deliveries[id];
      match d.phase
      case Begun(_) =>
        var b: nat :| Begins(states, steps, d, id, b, n - 1);
        assert Begins(states, steps, d, id, b, n);
      case Refused(_) =>
        var b: nat :| Begins(states, steps, d, id, b, n - 1);
        assert Begins(states, steps, d, id, b, n);
      case _ =>
    }
  }

  lemma {:induction false} PhasesExplained(states: seq<State>, steps: seq<Step>, ttl: Time, n: nat, id: nat)
    requires Run(states, steps, ttl) && n < |states|
    ensures Explained(states, steps, n, id, ttl)
  {
    if n > 0 {
      PhasesExplained(states, steps, ttl, n - 1, id);
      ClaimsAreNamed(states, steps, ttl, n - 1);
      StepExplained(states, steps, ttl, n, id);
    }
  }

  lemma StepExplained(states: seq<State>, steps: seq<Step>, ttl: Time, n: nat, id: nat)
    requires Run(states, steps, ttl) && 0 < n < |states|
    requires Explained(states, steps, n - 1, id, ttl) && NamedClaims(states[n - 1])
    ensures Explained(states, steps, n, id, ttl)
  {
    var s, step, s' := states[n - 1], steps[n - 1], states[n];
    assert Enabled(s, step) && s' == Apply(s, step, ttl);
    if !Concerns(step, id) {
      OthersStay(s, step, id, ttl);
      StillExplained(states, steps, ttl, n, id);
      return;
    }
    var d' := s'.deliveries[id];
    match step
    case Begin(_, _) =>
      assert Begins(states, steps, d', id, n - 1, n);
    case TryCreate(_) =>
      var b: nat :| Begins(states, steps, s.deliveries[id], id, b, n - 1);
      assert d'.phase.Refused? ==> Begins(states, steps, d', id, b, n);
    case Load(_) =>
      var b: nat :| Begins(states, steps, s.deliveries[id], id, b, n - 1);
      assert d'.phase.Read? ==> SawAt(states, steps, id, d'.ref, d'.phase.at, d'.phase.seen, b, n - 1);
    case Examine(_) =>
      var d := s.deliveries[id];
      var b: nat, l: nat :| l < n - 1 && SawAt(states, steps, id, d.ref, d.phase.at, d.phase.seen, b, l);
      assert d'.phase.Taking? ==> FoundStale(states, steps, id, d.phase.at, d.phase.seen, l, n - 1, ttl);
    case Save(_) =>
  }

  /** In every run a takeover comes only after its delivery began, read a claim of another
      reference, and found that holder unfinished and its claim older than the limit. */
  lemma TakeoverIsJustified(states: seq<State>, steps: seq<Step>, ttl: Time, n: nat, id: nat)
    returns (b: nat, l: nat, e: nat)
    requires Run(states, steps, ttl) && n < |steps| && steps[n] == Save(id)
    ensures b < l < e < n && steps[b].Begin? && steps[b].id == id && steps[l] == Load(id) && steps[e] == Examine(id)
    ensures states[l].claim.Some? && states[l].claim.value.holder != steps[b].ref
    ensures states[l].claim.value.holder !in states[e].finished
    ensures states[b].clock - states[l].claim.value.at > ttl
    ensures states[n + 1].claim == Some(Claim(steps[b].ref, states[b].clock))
  {
    PhasesExplained(states, steps, ttl, n, id);
    assert Enabled(states[n], steps[n]) && states[n + 1] == Apply(states[n], steps[n], ttl);
    var d := states[n].deliveries[id];
    b, l, e :| e < n && SawAt(states, steps, id, d.ref, d.phase.at, d.phase.seen, b, l)
               && FoundStale(states, steps, id, d.phase.at, d.phase.seen, l, e, ttl);
  }

  // ---------------------------------------------------------------------
  // Exactly when one reference wins
  // ---------------------------------------------------------------------

  lemma {:induction false} WinnersStay(states: seq<State>, steps: seq<Step>, ttl: Time, i: nat, j: nat, id: nat)
    requires Run(states, steps, ttl) && i <= j < |states| && Wins(states[i], id)
    ensures Wins(states[j], id) && states[j].deliveries[id].ref == states[i].deliveries[id].ref
    decreases j
  {
    if i < j {
      WinnersStay(states, steps, ttl, i, j - 1, id);
      assert Enabled(states[j - 1], steps[j - 1]) && states[j] == Apply(states[j - 1], steps[j - 1], ttl);
    }
  }

  /** Every claim on record was written by a winner. */
  lemma {:induction false} HolderIsWinner(states: seq<State>, steps: seq<Step>, ttl: Time, n: nat) returns (id: nat)
    requires Run(states, steps, ttl) && n < |states| && states[n].claim.Some?
    ensures Wins(states[n], id) && states[n].deliveries[id].ref == states[n].claim.value.holder
  {
    var s, step := states[n - 1], steps[n - 1];
    assert Enabled(s, step) && states[n] == Apply(s, step, ttl);
    if (step.TryCreate? && s.claim.None?) || step.Save? {
      id := step.id;
    } else {
      id := HolderIsWinner(states, steps, ttl, n - 1);
    }
  }

  /** In every run, all winning deliveries carry one reference if and only if no takeover occurs. */
  lemma OneWinnerExactly(states: seq<State>, steps: seq<Step>, ttl: Time)
    requires Run(states, steps, ttl)
    ensures var s := states[|steps|];
      (forall a, b | Wins(s, a) && Wins(s, b) :: s.deliveries[a].ref == s.deliveries[b].ref)
      <==> forall k | 0 <= k < |steps| :: !steps[k].Save?
  {
    var s, n := states[|steps|], |steps|;
    hide Run, Trace;
    if forall k | 0 <= k < |steps| :: !steps[k].Save? {
      forall a, b | Wins(s, a) && Wins(s, b)
        ensures s.deliveries[a].ref == s.deliveries[b].ref
      {
        OneWinner(states, steps, ttl, n, n, a, b, "");
      }
    } else {
      var k :| 0 <= k < |steps| && steps[k].Save?;
      TakeoverAddsWinner(states, steps, ttl, k);
    }
  }

  lemma TakeoverAddsWinner(states: seq<State>, steps: seq<Step>, ttl: Time, k: nat)
    requires Run(states, steps, ttl) && k < |steps| && steps[k].Save?
    ensures var s := states[|steps|];
      exists a, b :: Wins(s, a) && Wins(s, b) && s.deliveries[a].ref != s.deliveries[b].ref
  {
    var id := steps[k].id;
    var b, l, e := TakeoverIsJustified(states, steps, ttl, k, id);
    assert Enabled(states[k], steps[k]) && states[k + 1] == Apply(states[k], steps[k], ttl);
    hide Run, Trace;
    assert Wins(states[k + 1], id) && states[k + 1].deliveries[id].ref == steps[b].ref;
    var w := HolderIsWinner(states, steps, ttl, l);
    WinnersStay(states, steps, ttl, l, |steps|, w);
    WinnersStay(states, steps, ttl, k + 1, |steps|, id);
  }

  // ---------------------------------------------------------------------
  // Exactly when a finished holder can be replaced
  // ---------------------------------------------------------------------

  /** A delivery of another reference that is about to overwrite the claim, or has read one it would. */
  predicate Poised(s: State, id: nat, ttl: Time) {
    && id in s.deliveries && s.deliveries[id].ref != ReadBack(s.claim).holder
    && match s.deliveries[id].phase
       case Taking(_, _) => true
       case Read(at, seen) => Respond(seen, seen.holder in s.finished, s.deliveries[id].ref, at, ttl) == TakeOver
       case _ => false
  }

  /** The record is held by a reference whose case has finished. */
  predicate HeldFinished(s: State) { s.claim.Some? && s.claim.value.holder != "" && s.claim.value.holder in s.finished }

  /** No step makes a delivery poised against a finished holder, or replaces it while none is. */
  lemma StaysSettled(s: State, step: Step, ttl: Time)
    requires HeldFinished(s) && Enabled(s, step) && forall id :: !Poised(s, id, ttl)
    ensures HeldFinished(Apply(s, step, ttl)) && Apply(s, step, ttl).claim.value.holder == s.claim.value.holder
    ensures forall id :: !Poised(Apply(s, step, ttl), id, ttl)
  {
    var s' := Apply(s, step, ttl);
    assert step.Save? ==> !Poised(s, step.id, ttl);
    forall id
      ensures !Poised(s', id, ttl)
    {
      assert !Poised(s, id, ttl);
    }
  }

  lemma {:induction false} SettledForGood(states: seq<State>, steps: seq<Step>, ttl: Time, n: nat)
    requires Trace(states, steps, ttl) && n < |states| && HeldFinished(states[0]) && forall id :: !Poised(states[0], id, ttl)
    ensures HeldFinished(states[n]) && states[n].claim.value.holder == states[0].claim.value.holder
    ensures forall id :: !Poised(states[n], id, ttl)
  {
    if n > 0 {
      SettledForGood(states, steps, ttl, n - 1);
      assert Enabled(states[n - 1], steps[n - 1]) && states[n] == Apply(states[n - 1], steps[n - 1], ttl);
      hide Poised, Trace;
      StaysSettled(states[n - 1], steps[n - 1], ttl);
    }
  }

  lemma PoisedReplaces(s: State, id: nat, ttl: Time) returns (states: seq<State>, steps: seq<Step>)
    requires HeldFinished(s) && Poised(s, id, ttl)
    ensures Trace(states, steps, ttl) && states[0] == s && ReadBack(states[|steps|].claim).holder != s.claim.value.holder
  {
    if s.deliveries[id].phase.Taking? {
      steps := [Save(id)];
      states := [s, Apply(s, Save(id), ttl)];
    } else {
      var s1 := Apply(s, Examine(id), ttl);
      steps := [Examine(id), Save(id)];
      states := [s, s1, Apply(s1, Save(id), ttl)];
    }
  }

  /** Once the holder has finished, some continuation replaces it if and only if some delivery of another
      reference is already about to overwrite the claim, or has read one that it would take over. */
  lemma FinishedHolderLostExactly(s: State, ttl: Time)
    requires HeldFinished(s)
    ensures (exists states: seq<State>, steps: seq<Step> :: Trace(states, steps, ttl) && states[0] == s
               && ReadBack(states[|steps|].claim).holder != s.claim.value.holder)
      <==> exists id :: Poised(s, id, ttl)
  {
    hide Poised;
    if id: nat :| Poised(s, id, ttl) {
      var states, steps := PoisedReplaces(s, id, ttl);
    } else {
      forall states: seq<State>, steps: seq<Step> | Trace(states, steps, ttl) && states[0] == s
        ensures ReadBack(states[|steps|].claim).holder == s.claim.value.holder
      {
        StillHeld(states, steps, ttl);
      }
    }
  }

  lemma StillHeld(states: seq<State>, steps: seq<Step>, ttl: Time)
    requires Trace(states, steps, ttl) && HeldFinished(states[0]) && forall id :: !Poised(states[0], id, ttl)
    ensures ReadBack(states[|steps|].claim).holder == states[0].claim.value.holder
  {
    SettledForGood(states, steps, ttl, |steps|);
  }

  // ---------------------------------------------------------------------
  // Uninterrupted attempts
  // ---------------------------------------------------------------------

  /** An attempt, the passing of time, or a case reaching its end. */
  datatype Move = Elapse(clock: Time) | Deliver(ref: Ref) | Conclude(ref: Ref)

  datatype Record = Record(clock: Time, claim: Option<Claim>, finished: set<Ref>)

  predicate Allowed(r: Record, move: Move) {
    match move
    case Elapse(clock) => r.clock <= clock
    case Deliver(ref) => ref != ""
    case Conclude(_) => true
  }

  function After(r: Record, move: Move, ttl: Time): Record {
    match move
    case Elapse(clock) => r.(clock := clock)
    case Deliver(ref) => r.(claim := Some(Attempt(r.claim, r.finished, ref, r.clock, ttl).0))
    case Conclude(ref) => r.(finished := r.finished + {ref})
  }

  /** The steps of one delivery up to the end of the phase it is in, taken without a pause. */
  function Uninterrupted(s: State, id: nat, ttl: Time): State
    requires id in s.deliveries
    decreases match s.deliveries[id].phase case Begun(_) => 4 case Refused(_) => 3 case Read(_, _) => 2 case Taking(_, _) => 1 case Through(_) => 0
  {
    match s.deliveries[id].phase
    case Begun(_) => Uninterrupted(Apply(s, TryCreate(id), ttl), id, ttl)
    case Refused(_) => Uninterrupted(Apply(s, Load(id), ttl), id, ttl)
    case Read(_, _) => Uninterrupted(Apply(s, Examine(id), ttl), id, ttl)
    case Taking(_, _) => Uninterrupted(Apply(s, Save(id), ttl), id, ttl)
    case Through(_) => s
  }

  /** A delivery whose steps nobody interrupts is exactly one attempt. */
  lemma UninterruptedIsAttempt(s: State, id: nat, ref: Ref, ttl: Time)
    requires Enabled(s, Begin(id, ref)) && (s.claim.Some? ==> s.claim.value.holder != "")
    ensures var (claim, outcome) := Attempt(s.claim, s.finished, ref, s.clock, ttl);
      Uninterrupted(Apply(s, Begin(id, ref), ttl), id, ttl)
        == s.(claim := Some(claim), deliveries := s.deliveries[id := Delivery(ref, Through(outcome))])
  {
    var s1 := Apply(s, Begin(id, ref), ttl);
    var s2 := Apply(s1, TryCreate(id), ttl);
    if s.claim.Some? {
      var s3 := Apply(s2, Load(id), ttl);
      assert Uninterrupted(s1, id, ttl) == Uninterrupted(s3, id, ttl);
      if s3.deliveries[id].phase.Read? {
        var s4 := Apply(s3, Examine(id), ttl);
        assert Uninterrupted(s3, id, ttl) == Uninterrupted(s4, id, ttl);
        if s4.deliveries[id].phase.Taking? {
          var s5 := Apply(s4, Save(id), ttl);
          assert Uninterrupted(s4, id, ttl) == s5;
        }
      }
    }
  }

  /** What the interleaved record looks like to a delivery that nobody interrupts. */
  function RecordOf(s: State): Record { Record(s.clock, s.claim, s.finished) }

  /** The moves are the steps: time passing and cases ending as they are, and a delivery in one go. */
  lemma MovesAreSteps(s: State, id: nat, ref: Ref, t: Time, ttl: Time)
    requires id !in s.deliveries && (s.claim.Some? ==> s.claim.value.holder != "")
    ensures Allowed(RecordOf(s), Elapse(t)) <==> Enabled(s, Tick(t))
    ensures Enabled(s, Tick(t)) ==> After(RecordOf(s), Elapse(t), ttl) == RecordOf(Apply(s, Tick(t), ttl))
    ensures Allowed(RecordOf(s), Conclude(ref)) <==> Enabled(s, Finish(ref))
    ensures After(RecordOf(s), Conclude(ref), ttl) == RecordOf(Apply(s, Finish(ref), ttl))
    ensures Allowed(RecordOf(s), Deliver(ref)) <==> Enabled(s, Begin(id, ref))
    ensures Enabled(s, Begin(id, ref)) ==>
      After(RecordOf(s), Deliver(ref), ttl) == RecordOf(Uninterrupted(Apply(s, Begin(id, ref), ttl), id, ttl))
  {
    if Enabled(s, Begin(id, ref)) {
      UninterruptedIsAttempt(s, id, ref, ttl);
    }
  }

  ghost predicate AtomicRun(records: seq<Record>, moves: seq<Move>, ttl: Time) {
    && |records| == |moves| + 1 && records[0].claim.None?
    && forall i | 0 <= i < |moves| :: Allowed(records[i], moves[i]) && records[i + 1] == After(records[i], moves[i], ttl)
  }

  ghost predicate Changes(records: seq<Record>, i: nat)
    requires i + 1 < |records|
  {
    records[i].claim != records[i + 1].claim
  }

  /** The claim on record was made at step `i` and its time is that step's. */
  lemma {:induction false} MadeWhen(records: seq<Record>, moves: seq<Move>, ttl: Time, n: nat)
    requires AtomicRun(records, moves, ttl) && n < |records|
    ensures records[n].claim.Some? ==> records[n].claim.value.holder != "" && records[n].claim.value.at <= records[n].clock
    ensures forall i | 0 <= i < n && Changes(records, i) ::
      records[n].claim.Some? && records[i].clock <= records[n].claim.value.at
  {
    if n > 0 {
      MadeWhen(records, moves, ttl, n - 1);
      assert Allowed(records[n - 1], moves[n - 1]) && records[n] == After(records[n - 1], moves[n - 1], ttl);
    }
  }

  /** With attempts uninterrupted, two changes of the claim are more than the limit apart. */
  lemma ChangesAreApart(records: seq<Record>, moves: seq<Move>, ttl: Time, i: nat, j: nat)
    requires AtomicRun(records, moves, ttl) && i < j < |moves|
    requires Changes(records, i) && Changes(records, j)
    ensures records[j].clock - records[i].clock > ttl
  {
    MadeWhen(records, moves, ttl, j);
    assert records[j + 1] == After(records[j], moves[j], ttl);
  }

  /** A change of the claim is a change of holder: the holder's own redelivery renews nothing. */
  lemma ChangeIsOfHolder(records: seq<Record>, moves: seq<Move>, ttl: Time, i: nat)
    requires AtomicRun(records, moves, ttl) && i < |moves|
    ensures Changes(records, i) <==> ReadBack(records[i].claim).holder != ReadBack(records[i + 1].claim).holder
  {
    MadeWhen(records, moves, ttl, i);
    assert Allowed(records[i], moves[i]) && records[i + 1] == After(records[i], moves[i], ttl);
  }

  /** With attempts uninterrupted nobody is ever poised: once the holder has finished, nobody else passes
      the analysis check again. */
  lemma {:induction false} FinishedIsFinal(records: seq<Record>, moves: seq<Move>, ttl: Time, i: nat, j: nat, ref: Ref)
    requires AtomicRun(records, moves, ttl) && i <= j < |records|
    requires records[i].claim.Some? && records[i].claim.value.holder in records[i].finished
    ensures records[j].claim == records[i].claim && records[i].finished <= records[j].finished
    ensures MayAnalyse(records[j].claim, ref) <==> ref == records[i].claim.value.holder
    decreases j
  {
    MadeWhen(records, moves, ttl, i);
    if i < j {
      FinishedIsFinal(records, moves, ttl, i, j - 1, ref);
      assert Allowed(records[j - 1], moves[j - 1]) && records[j] == After(records[j - 1], moves[j - 1], ttl);
    }
  }

  // ---------------------------------------------------------------------
  // What interleaving costs
  // ---------------------------------------------------------------------

  /** Any two deliveries that both reached the overwrite both win, whatever their references. */
  lemma TakersAllWin(s: State, a: nat, b: nat, ttl: Time)
    requires a != b && Enabled(s, Save(a)) && Enabled(s, Save(b))
    ensures Enabled(Apply(s, Save(a), ttl), Save(b))
    ensures var s' := Apply(Apply(s, Save(a), ttl), Save(b), ttl);
      && Wins(s', a) && Wins(s', b)
      && (MayAnalyse(s'.claim, s.deliveries[a].ref) <==> s.deliveries[a].ref == s.deliveries[b].ref || s.deliveries[b].ref == "")
  {
    var s1 := Apply(s, Save(a), ttl);
    assert s1.deliveries[b] == s.deliveries[b];
  }

  function Last(states: seq<State>): State
    requires states != []
  {
    states[|states| - 1]
  }

  lemma Extended(states: seq<State>, steps: seq<Step>, ttl: Time, step: Step) returns (states': seq<State>, steps': seq<Step>)
    requires Run(states, steps, ttl) && Enabled(Last(states), step)
    ensures states' != [] && Run(states', steps', ttl) && Last(states') == Apply(Last(states), step, ttl)
  {
    states', steps' := states + [Apply(Last(states), step, ttl)], steps + [step];
  }

  /** A run in which two references win: deliveries 1 and 2 both read the dead claim of delivery 0
      before either overwrites it. */
  lemma RacingTakeoversBothWin(ttl: Time) returns (states: seq<State>, steps: seq<Step>)
    requires ttl > 0.0
    ensures states != [] && Run(states, steps, ttl)
    ensures var s := Last(states); Wins(s, 1) && Wins(s, 2) && s.deliveries[1].ref != s.deliveries[2].ref
  {
    hide Run, Last;
    states, steps := Started();
    states, steps := Extended(states, steps, ttl, Begin(0, "x"));
    states, steps := Extended(states, steps, ttl, TryCreate(0));
    states, steps := Extended(states, steps, ttl, Tick(ttl + 1.0));
    states, steps := Extended(states, steps, ttl, Begin(1, "y"));
    states, steps := Extended(states, steps, ttl, Begin(2, "z"));
    states, steps := Extended(states, steps, ttl, TryCreate(1));
    states, steps := Extended(states, steps, ttl, TryCreate(2));
    states, steps := Extended(states, steps, ttl, Load(1));
    states, steps := Extended(states, steps, ttl, Load(2));
    states, steps := Extended(states, steps, ttl, Examine(1));
    states, steps := Extended(states, steps, ttl, Examine(2));
    states, steps := Extended(states, steps, ttl, Save(1));
    states, steps := Extended(states, steps, ttl, Save(2));
  }

  lemma Started() returns (states: seq<State>, steps: seq<Step>)
    ensures states != [] && Last(states) == State(0.0, None, {}, map[]) && forall ttl :: Run(states, steps, ttl)
  {
    states, steps := [State(0.0, None, {}, map[])], [];
  }

  /** Delivery 1 finds the holder unfinished; the holder finishes; delivery 1 takes the finished record over. */
  lemma FinishedHolderReplaced(ttl: Time) returns (states: seq<State>, steps: seq<Step>)
    requires ttl > 0.0
    ensures states != [] && Run(states, steps, ttl)
    ensures var s := Last(states); "x" in s.finished && Wins(s, 0) && s.deliveries[0].ref == "x" && s.claim.Some? && s.claim.value.holder == "y"
  {
    hide Run, Trace, Last;
    states, steps := Started();
    states, steps := Extended(states, steps, ttl, Begin(0, "x"));
    states, steps := Extended(states, steps, ttl, TryCreate(0));
    states, steps := Extended(states, steps, ttl, Tick(ttl + 1.0));
    states, steps := Extended(states, steps, ttl, Begin(1, "y"));
    states, steps := Extended(states, steps, ttl, TryCreate(1));
    states, steps := Extended(states, steps, ttl, Load(1));
    states, steps := Extended(states, steps, ttl, Examine(1));
    states, steps := Extended(states, steps, ttl, Finish("x"));
    states, steps := Extended(states, steps, ttl, Save(1));
  }
}
