/** The queue of replays that wait for a version: src/dlt/parked.py. */
module Parked {
  import opened Options
  import opened Versions
  import opened CodeCheck
  import opened AutoReplay
  import Machines

  type Time = real

  datatype Status = Waiting | Released | Expired

  datatype Entry = Entry(ref: string, required: Option<Version>, parkedAt: Time, status: Status, lastAttempt: Option<Time>)

  /** Entries by case id. */
  type Queue = map<string, Entry>

  datatype Rules = Rules(enabled: bool, cap: nat, ttl: Time, usable: string -> bool)

  function WaitingIn(q: Queue): set<string> { set c | c in q && q[c].status == Waiting }

  // ---------------------------------------------------------------------
  // Parking
  // ---------------------------------------------------------------------

  datatype Answer = Added | AlreadyWaiting | AlreadyOver | NoVersion | BadKey | NoRef | Full | ParkingOff | NotHeldBack

  predicate IsParked(a: Answer) { a in {Added, AlreadyWaiting} }

  function NewEntry(ref: string, required: Option<Version>, now: Time): Entry { Entry(ref, required, now, Waiting, None) }

  function AnswerTo(q: Queue, rules: Rules, c: string, ref: string, required: Option<Version>): Answer {
    if required.None? then NoVersion
    else if !rules.usable(c) then BadKey
    else if ref == "" then NoRef
    else if c in q then if q[c].status == Waiting then AlreadyWaiting else AlreadyOver
    else if |WaitingIn(q)| >= rules.cap then Full
    else Added
  }

  function ParkedIn(q: Queue, rules: Rules, c: string, ref: string, required: Option<Version>, now: Time): Queue {
    if AnswerTo(q, rules, c, ref, required) == Added then q[c := NewEntry(ref, required, now)] else q
  }

  lemma StatusIsOneOf(q: Queue, c: string)
    ensures c in q ==> q[c].status in {Waiting, Released, Expired}
  {
    if c in q {
      match q[c].status
      case Waiting =>
      case Released =>
      case Expired =>
    }
  }

  // ---------------------------------------------------------------------
  // Releasing
  // ---------------------------------------------------------------------

  datatype Outcome = IsReleased | HasFailed | HasExpired | StillWaiting | NotKnown

  /** An entry with no time on it is of no age. */
  function Age(e: Entry, now: Time): Time { if e.parkedAt == 0.0 then 0.0 else now - e.parkedAt }

  predicate IsStale(e: Entry, now: Time, ttl: Time) { ttl > 0.0 && Age(e, now) > ttl }

  /** What a release makes of a waiting entry; `queued` is whether an attempt succeeds. */
  function Fate(e: Entry, running: Option<Version>, now: Time, ttl: Time, queued: bool): Outcome {
    if IsStale(e, now, ttl) then HasExpired
    else
      match AtLeast(running, e.required)
      case None => NotKnown
      case Some(satisfied) => if !satisfied then StillWaiting else if queued then IsReleased else HasFailed
  }

  function Marked(e: Entry, fate: Outcome, now: Time): Entry {
    match fate
    case IsReleased => e.(status := Released)
    case HasFailed => e.(lastAttempt := Some(now))
    case HasExpired => e.(status := Expired)
    case StillWaiting => e
    case NotKnown => e
  }

  /** One release: the running builds, the time, which attempts succeed, and whether it is a dry run. */
  datatype Release = Release(runnings: seq<Option<Version>>, now: Time, queues: string -> bool, dry: bool)

  /** An attempt without a reference never succeeds; a dry run makes none and counts it as a success. */
  predicate Succeeds(e: Entry, c: string, r: Release) { r.dry || (e.ref != "" && r.queues(c)) }

  function FateIn(q: Queue, c: string, r: Release, ttl: Time): Outcome
    requires c in q
  {
    Fate(q[c], Lowest(r.runnings), r.now, ttl, Succeeds(q[c], c, r))
  }

  /** The queue when the cases in `done` have been dealt with. */
  function ReleasedIn(q: Queue, r: Release, ttl: Time, done: set<string>): Queue {
    map c | c in q :: if c in done && !r.dry && q[c].status == Waiting then Marked(q[c], FateIn(q, c, r, ttl), r.now) else q[c]
  }

  datatype Line = Line(case_: string, outcome: Outcome)

  function Lines(q: Queue, order: seq<string>, r: Release, ttl: Time): seq<Line>
    requires forall c | c in order :: c in q
  {
    seq(|order|, i requires 0 <= i < |order| => Line(order[i], FateIn(q, order[i], r, ttl)))
  }

  /** What a release adds to the replay queue: the cases it releases, in order. */
  function Sent(q: Queue, order: seq<string>, r: Release, ttl: Time): seq<string>
    requires forall c | c in order :: c in q
  {
    if order == [] || r.dry then []
    else (if FateIn(q, order[0], r, ttl) == IsReleased then [order[0]] else []) + Sent(q, order[1..], r, ttl)
  }

  function Tally(lines: seq<Line>, outcome: Outcome): nat {
    if lines == [] then 0 else (if lines[0].outcome == outcome then 1 else 0) + Tally(lines[1..], outcome)
  }

  datatype Summary = Summary(examined: nat, released: nat, failed: nat, expired: nat, waiting: nat, unknown: nat, lines: seq<Line>)

  /** `order` lists the waiting entries, each once. */
  ghost predicate ListsWaiting(order: seq<string>, q: Queue) {
    && (forall i, j | 0 <= i < j < |order| :: order[i] != order[j])
    && (forall c :: c in order <==> c in WaitingIn(q))
  }

  /** The summary of the lines so far. */
  function Summarised(lines: seq<Line>): Summary {
    Summary(|lines|, Tally(lines, IsReleased), Tally(lines, HasFailed), Tally(lines, HasExpired),
            Tally(lines, StillWaiting), Tally(lines, NotKnown), lines)
  }

  function Adding(s: Summary, line: Line): Summary {
    var s' := s.(examined := s.examined + 1, lines := s.lines + [line]);
    match line.outcome
    case IsReleased => s'.(released := s.released + 1)
    case HasFailed => s'.(failed := s.failed + 1)
    case HasExpired => s'.(expired := s.expired + 1)
    case StillWaiting => s'.(waiting := s.waiting + 1)
    case NotKnown => s'.(unknown := s.unknown + 1)
  }

  lemma {:induction false} TallyMore(lines: seq<Line>, line: Line, outcome: Outcome)
    ensures Tally(lines + [line], outcome) == Tally(lines, outcome) + if line.outcome == outcome then 1 else 0
  {
    if lines == [] {
      assert [line][1..] == [];
    } else {
      TallyMore(lines[1..], line, outcome);
      assert (lines + [line])[1..] == lines[1..] + [line];
    }
  }

  lemma SummarisedMore(lines: seq<Line>, line: Line)
    ensures Summarised(lines + [line]) == Adding(Summarised(lines), line)
  {
    TallyMore(lines, line, IsReleased);
    TallyMore(lines, line, HasFailed);
    TallyMore(lines, line, HasExpired);
    TallyMore(lines, line, StillWaiting);
    TallyMore(lines, line, NotKnown);
  }

  /** A summary splits what was examined exactly into the five outcomes. */
  lemma {:induction false} SplitsExactly(lines: seq<Line>)
    ensures var s := Summarised(lines); s.examined == s.released + s.failed + s.expired + s.waiting + s.unknown
  {
    if lines != [] {
      SplitsExactly(lines[1..]);
    }
  }

  lemma ReleasedMore(q: Queue, r: Release, ttl: Time, done: set<string>, c: string)
    requires c in q && q[c].status == Waiting && c !in done
    ensures c in ReleasedIn(q, r, ttl, done) && ReleasedIn(q, r, ttl, done)[c] == q[c]
    ensures ReleasedIn(q, r, ttl, done + {c})
         == if r.dry then ReleasedIn(q, r, ttl, done) else ReleasedIn(q, r, ttl, done)[c := Marked(q[c], FateIn(q, c, r, ttl), r.now)]
  {
    hide FateIn, Marked;
  }

  lemma {:induction false} SentTo(q: Queue, order: seq<string>, k: nat, r: Release, ttl: Time)
    requires k < |order| && forall c | c in order :: c in q
    ensures Sent(q, order[..k + 1], r, ttl)
         == Sent(q, order[..k], r, ttl) + if !r.dry && FateIn(q, order[k], r, ttl) == IsReleased then [order[k]] else []
  {
    if k == 0 {
      assert order[..1][1..] == [] && order[..0] == [];
    } else {
      SentTo(q, order[1..], k - 1, r, ttl);
      assert order[..k + 1][1..] == order[1..][..k] && order[..k][1..] == order[1..][..k - 1];
    }
  }

  /** The stored queue and what has been queued for replay from it. */
  class ParkedQueue {
    const rules: Rules
    var entries: Queue
    var sent: seq<string>

    constructor (rules: Rules, entries: Queue)
      ensures this.rules == rules && this.entries == entries && sent == []
    {
      this.rules, this.entries, sent := rules, entries, [];
    }

    method Park(c: string, ref: string, required: Option<Version>, now: Time) returns (answer: Answer)
      modifies this`entries
      ensures answer == AnswerTo(old(entries), rules, c, ref, required)
      ensures entries == ParkedIn(old(entries), rules, c, ref, required, now)
      ensures answer == Added ==> entries == old(entries)[c := Entry(ref, required, now, Waiting, None)]
      ensures answer != Added ==> entries == old(entries)
      ensures answer == NoVersion <==> required.None?
      ensures answer == BadKey <==> required.Some? && !rules.usable(c)
      ensures answer == NoRef <==> required.Some? && rules.usable(c) && ref == ""
      ensures IsParked(answer) && answer != Added <==>
        required.Some? && rules.usable(c) && ref != "" && c in old(entries) && old(entries)[c].status == Waiting
      ensures answer == AlreadyOver <==>
        required.Some? && rules.usable(c) && ref != "" && c in old(entries) && old(entries)[c].status in {Released, Expired}
      ensures answer == Full <==>
        required.Some? && rules.usable(c) && ref != "" && c !in old(entries) && |WaitingIn(old(entries))| >= rules.cap
    {
      assert c in entries ==> entries[c].status in {Waiting, Released, Expired} by { StatusIsOneOf(entries, c); }
      if required.None? {
        return NoVersion;
      }
      if !rules.usable(c) {
        return BadKey;
      }
      if ref == "" {
        return NoRef;
      }
      if c in entries {
        return if entries[c].status == Waiting then AlreadyWaiting else AlreadyOver;
      }
      if |WaitingIn(entries)| >= rules.cap {
        return Full;
      }
      entries := entries[c := NewEntry(ref, required, now)];
      return Added;
    }

    /** What the analysis lane calls after the replay gate. */
    method MaybePark(p: Policy, f: Finding, c: string, ref: string, check: Check, now: Time) returns (answer: Answer)
      modifies this`entries
      ensures answer == MaybeAnswer(old(entries), rules, p, f, c, ref, check)
      ensures entries == if answer == Added then old(entries)[c := Entry(ref, check.required, now, Waiting, None)] else old(entries)
    {
      if !rules.enabled {
        return ParkingOff;
      }
      if ref == "" {
        return NoRef;
      }
      if !OnlyAwaitsVersion(p, f, ref, check) {
        return NotHeldBack;
      }
      answer := Park(c, ref, check.required, now);
    }

    /** Releases what the running builds now satisfy, going through the waiting entries in `order`. */
    method ReleaseReady(r: Release, order: seq<string>) returns (s: Summary)
      requires ListsWaiting(order, entries)
      modifies this`entries, this`sent
      ensures entries == ReleasedIn(old(entries), r, rules.ttl, WaitingIn(old(entries)))
      ensures sent == old(sent) + Sent(old(entries), order, r, rules.ttl)
      ensures s == Summarised(Lines(old(entries), order, r, rules.ttl))
    {
      hide Fate, Marked, Lowest, Summarised, ReleasedIn, Sent, Dealt, ListsWaiting;
      AllDealt(order, entries, r, rules.ttl);
      var running := FindLowest(r.runnings);
      ghost var before := entries;
      ghost var all := Lines(before, order, r, rules.ttl);
      s := Summary(0, 0, 0, 0, 0, 0, []);
      assert order[..0] == [] && all[..0] == [];
      for i := 0 to |order|
        invariant entries == ReleasedIn(before, r, rules.ttl, Dealt(order, i))
        invariant sent == old(sent) + Sent(before, order[..i], r, rules.ttl)
        invariant s == Summarised(all[..i])
      {
        var c := order[i];
        DealtMore(order, i, before);
        ReleasedMore(before, r, rules.ttl, Dealt(order, i), c);
        SentTo(before, order, i, r, rules.ttl);
        SummarisedMore(all[..i], all[i]);
        assert all[..i + 1] == all[..i] + [all[i]];
        var outcome := Examine(c, running, r);
        s := Adding(s, Line(c, outcome));
      }
      assert order[..|order|] == order && all[..|order|] == all;
    }

    /** What the loop does with one waiting entry. */
    method Examine(c: string, running: Option<Version>, r: Release) returns (outcome: Outcome)
      requires c in entries
      modifies this`entries, this`sent
      ensures outcome == Fate(old(entries)[c], running, r.now, rules.ttl, Succeeds(old(entries)[c], c, r))
      ensures entries == if r.dry then old(entries) else old(entries)[c := Marked(old(entries)[c], outcome, r.now)]
      ensures sent == old(sent) + if !r.dry && outcome == IsReleased then [c] else []
    {
      var e := entries[c];
      if rules.ttl > 0.0 && Age(e, r.now) > rules.ttl {
        if !r.dry {
          entries := entries[c := e.(status := Expired)];
        }
        return HasExpired;
      }
      var satisfied := AtLeast(running, e.required);
      if satisfied.None? {
        return NotKnown;
      }
      if !satisfied.value {
        return StillWaiting;
      }
      if r.dry {
        return IsReleased;
      }
      if e.ref != "" && r.queues(c) {
        sent := sent + [c];
        entries := entries[c := e.(status := Released)];
        return IsReleased;
      }
      entries := entries[c := e.(lastAttempt := Some(r.now))];
      return HasFailed;
    }
  }

  function Dealt(order: seq<string>, i: nat): set<string>
    requires i <= |order|
  {
    set c | c in order[..i]
  }

  lemma AllDealt(order: seq<string>, q: Queue, r: Release, ttl: Time)
    requires ListsWaiting(order, q)
    ensures Dealt(order, |order|) == WaitingIn(q) && forall c | c in order :: c in q
    ensures ReleasedIn(q, r, ttl, Dealt(order, 0)) == q && Sent(q, [], r, ttl) == []
    ensures Summarised([]) == Summary(0, 0, 0, 0, 0, 0, [])
  {
    assert forall c | c in order :: c in WaitingIn(q);
    assert order[..|order|] == order;
  }

  lemma DealtMore(order: seq<string>, i: nat, q: Queue)
    requires ListsWaiting(order, q) && i < |order|
    ensures Dealt(order, i + 1) == Dealt(order, i) + {order[i]} && order[i] !in Dealt(order, i)
    ensures order[i] in q && q[order[i]].status == Waiting
  {
    assert order[..i + 1] == order[..i] + [order[i]];
    assert order[i] in order && order[i] in WaitingIn(q);
  }

  function MaybeAnswer(q: Queue, rules: Rules, p: Policy, f: Finding, c: string, ref: string, check: Check): Answer {
    if !rules.enabled then ParkingOff
    else if ref == "" then NoRef
    else if !OnlyAwaitsVersion(p, f, ref, check) then NotHeldBack
    else AnswerTo(q, rules, c, ref, check.required)
  }

  // ---------------------------------------------------------------------
  // The gate and the queue together
  // ---------------------------------------------------------------------

  /** A finding is never both replayed and parked. */
  lemma NotBoth(q: Queue, rules: Rules, p: Policy, f: Finding, c: string, ref: string, check: Check)
    ensures Decide(p, f, ref, Some(check)) == Replay ==> !IsParked(MaybeAnswer(q, rules, p, f, c, ref, check))
    ensures IsParked(MaybeAnswer(q, rules, p, f, c, ref, check)) ==> Decide(p, f, ref, Some(check)) == Refuse(Vetoed)
  {
    CheckOnlyVetoes(p, f, ref, Some(check));
  }

  /** A packet is newly parked exactly when the gate withheld it by a veto that is NOT_DEPLOYED and names
      a version, parking is on, its key is usable, no entry exists and the queue is below its cap. */
  lemma ParkedExactlyWhenWithheld(q: Queue, rules: Rules, p: Policy, f: Finding, c: string, ref: string, check: Check)
    ensures MaybeAnswer(q, rules, p, f, c, ref, check) == Added <==>
      && Decide(p, f, ref, Some(check)) == Refuse(Vetoed) && check.verdict == NotDeployed && check.required.Some?
      && rules.enabled && rules.usable(c) && c !in q && |WaitingIn(q)| < rules.cap
  {
    CheckOnlyVetoes(p, f, ref, Some(check));
    ReplayIsEarned(p, f, ref, None);
  }

  // ---------------------------------------------------------------------
  // Any sequence of parks and releases
  // ---------------------------------------------------------------------

  datatype Step = ParkOne(case_: string, ref: string, required: Option<Version>, now: Time) | ReleaseSome(release: Release, order: seq<string>)

  datatype State = State(entries: Queue, sent: seq<string>)

  ghost predicate Enabled(s: State, step: Step) { step.ReleaseSome? ==> ListsWaiting(step.order, s.entries) }

  /** One call, as the methods leave the queue. */
  ghost function Apply(s: State, step: Step, rules: Rules): State
    requires Enabled(s, step)
  {
    match step
    case ParkOne(c, ref, required, now) => s.(entries := ParkedIn(s.entries, rules, c, ref, required, now))
    case ReleaseSome(r, order) =>
      State(ReleasedIn(s.entries, r, rules.ttl, WaitingIn(s.entries)), s.sent + Sent(s.entries, order, r, rules.ttl))
  }

  ghost function Next(rules: Rules): (State, Step) -> Option<State> {
    (s: State, step: Step) => if Enabled(s, step) then Some(Apply(s, step, rules)) else None
  }

  ghost function Play(s: State, steps: seq<Step>, rules: Rules): Option<State> { Machines.After(Next(rules), s, steps) }

  /** An entry stays, with its reference, version and time; only a waiting one changes status. */
  ghost predicate Follows(before: Queue, after: Queue) {
    forall c | c in before ::
      && c in after
      && after[c].ref == before[c].ref && after[c].required == before[c].required && after[c].parkedAt == before[c].parkedAt
      && (before[c].status != Waiting ==> after[c] == before[c])
  }

  function Larger(a: nat, b: nat): nat { if a < b then b else a }

  lemma Fewer(a: set<string>, b: set<string>)
    requires a <= b
    ensures |a| <= |b|
  {
    assert b == a + (b - a);
  }

  lemma ParkFollows(q: Queue, rules: Rules, c: string, ref: string, required: Option<Version>, now: Time)
    ensures Follows(q, ParkedIn(q, rules, c, ref, required, now))
    ensures |WaitingIn(ParkedIn(q, rules, c, ref, required, now))| <= Larger(|WaitingIn(q)|, rules.cap)
  {
    if AnswerTo(q, rules, c, ref, required) == Added {
      assert WaitingIn(ParkedIn(q, rules, c, ref, required, now)) == WaitingIn(q) + {c};
    }
  }

  lemma ReleaseFollows(q: Queue, r: Release, ttl: Time)
    ensures Follows(q, ReleasedIn(q, r, ttl, WaitingIn(q)))
    ensures |WaitingIn(ReleasedIn(q, r, ttl, WaitingIn(q)))| <= |WaitingIn(q)|
  {
    hide FateIn;
    var after := ReleasedIn(q, r, ttl, WaitingIn(q));
    assert WaitingIn(after) <= WaitingIn(q);
    Fewer(WaitingIn(after), WaitingIn(q));
  }

  lemma StepFollows(s: State, step: Step, rules: Rules)
    requires Enabled(s, step)
    ensures Follows(s.entries, Apply(s, step, rules).entries)
    ensures |WaitingIn(Apply(s, step, rules).entries)| <= Larger(|WaitingIn(s.entries)|, rules.cap)
  {
    hide Follows, WaitingIn, ParkedIn, ReleasedIn, ListsWaiting, Sent;
    match step
    case ParkOne(c, ref, required, now) => ParkFollows(s.entries, rules, c, ref, required, now);
    case ReleaseSome(r, order) => ReleaseFollows(s.entries, r, rules.ttl);
  }

  lemma {:induction false} RunFollows(s: State, steps: seq<Step>, rules: Rules)
    requires Play(s, steps, rules).Some?
    ensures Follows(s.entries, Play(s, steps, rules).value.entries)
    ensures |WaitingIn(Play(s, steps, rules).value.entries)| <= Larger(|WaitingIn(s.entries)|, rules.cap)
    decreases |steps|
  {
    if steps != [] {
      hide Apply, Enabled;
      StepFollows(s, steps[0], rules);
      RunFollows(Apply(s, steps[0], rules), steps[1..], rules);
    }
  }

  predicate NoRepeats(s: seq<string>) { forall i, j | 0 <= i < j < |s| :: s[i] != s[j] }

  /** What has been sent was sent once, and its entry says so. */
  ghost predicate SentOnce(s: State) {
    NoRepeats(s.sent) && forall c | c in s.sent :: c in s.entries && s.entries[c].status == Released
  }

  lemma {:induction false} SentMeaning(q: Queue, order: seq<string>, r: Release, ttl: Time)
    requires (forall c | c in order :: c in q) && NoRepeats(order)
    ensures NoRepeats(Sent(q, order, r, ttl))
    ensures forall c :: c in Sent(q, order, r, ttl) <==> !r.dry && c in order && FateIn(q, c, r, ttl) == IsReleased
  {
    if order != [] && !r.dry {
      assert order == [order[0]] + order[1..] && order[0] !in order[1..];
      SentMeaning(q, order[1..], r, ttl);
    }
  }

  lemma JoinedOnce(a: seq<string>, b: seq<string>)
    requires NoRepeats(a) && NoRepeats(b) && forall c | c in a :: c !in b
    ensures NoRepeats(a + b)
  {
    forall i, j | 0 <= i < j < |a + b|
      ensures (a + b)[i] != (a + b)[j]
    {
      if i < |a| <= j {
        assert a[i] in a && b[j - |a|] in b;
      }
    }
  }

  lemma StepSendsOnce(s: State, step: Step, rules: Rules)
    requires Enabled(s, step) && SentOnce(s)
    ensures SentOnce(Apply(s, step, rules))
  {
    if step.ReleaseSome? {
      var r, order := step.release, step.order;
      SentMeaning(s.entries, order, r, rules.ttl);
      var more := Sent(s.entries, order, r, rules.ttl);
      assert forall c | c in more :: c in WaitingIn(s.entries);
      var after := Apply(s, step, rules).entries;
      forall c | c in more
        ensures c in after && after[c].status == Released
      {
        assert FateIn(s.entries, c, r, rules.ttl) == IsReleased && !r.dry;
      }
      assert forall c | c in s.sent :: c in s.entries && after[c] == s.entries[c];
      JoinedOnce(s.sent, more);
      hide FateIn, ListsWaiting;
    }
  }

  lemma {:induction false} RunSendsOnce(s: State, steps: seq<Step>, rules: Rules)
    requires SentOnce(s) && Play(s, steps, rules).Some?
    ensures SentOnce(Play(s, steps, rules).value)
    decreases |steps|
  {
    if steps != [] {
      hide SentOnce, Apply, Enabled;
      StepSendsOnce(s, steps[0], rules);
      RunSendsOnce(Apply(s, steps[0], rules), steps[1..], rules);
    }
  }

  /** Over any sequence of parks and releases: a case is queued for replay at most once, and only as its
      entry leaves the queue; status moves only from waiting to released or expired, and nothing else
      of an entry changes; and the number waiting never grows past the cap. */
  lemma QueueIsSafe(entries: Queue, steps: seq<Step>, rules: Rules, c: string)
    requires Play(State(entries, []), steps, rules).Some?
    ensures var s := Play(State(entries, []), steps, rules).value;
      && NoRepeats(s.sent)
      && (c in s.sent ==> c in s.entries && s.entries[c].status == Released)
      && (c in s.sent && c in entries ==> entries[c].status == Waiting)
      && Follows(entries, s.entries)
      && |WaitingIn(s.entries)| <= Larger(|WaitingIn(entries)|, rules.cap)
  {
    var s0 := State(entries, []);
    RunFollows(s0, steps, rules);
    RunSendsOnce(s0, steps, rules);
    var s := Play(s0, steps, rules).value;
    assert Follows(entries, s.entries);
    if c in s.sent {
      SentWereWaiting(s0, steps, rules, c);
    }
  }

  lemma {:induction false} SentWereWaiting(s: State, steps: seq<Step>, rules: Rules, c: string)
    requires Play(s, steps, rules).Some? && c in Play(s, steps, rules).value.sent && c !in s.sent
    ensures c in s.entries ==> s.entries[c].status == Waiting
    decreases |steps|
  {
    var s' := Apply(s, steps[0], rules);
    if c in s'.sent {
      var r, order := steps[0].release, steps[0].order;
      SentMeaning(s.entries, order, r, rules.ttl);
      assert c in WaitingIn(s.entries);
    } else {
      StepFollows(s, steps[0], rules);
      SentWereWaiting(s', steps[1..], rules, c);
    }
  }

  /** Older than the limit; an entry without a time never is. */
  predicate Overdue(parkedAt: Time, now: Time, ttl: Time) { ttl > 0.0 && parkedAt != 0.0 && now > parkedAt + ttl }

  /** The lowest running build is at least the version waited for. */
  predicate Satisfies(runnings: seq<Option<Version>>, required: Option<Version>) {
    required.Some? && Lowest(runnings).Some? && Compare(Lowest(runnings).value, required.value) >= 0
  }

  /** What a release makes of each waiting entry, outcome by outcome, and what it leaves of it. */
  lemma LeftExactly(q: Queue, r: Release, ttl: Time, c: string)
    requires c in WaitingIn(q)
    ensures var e, fate := q[c], FateIn(q, c, r, ttl);
      var overdue, satisfied := Overdue(e.parkedAt, r.now, ttl), Satisfies(r.runnings, e.required);
      && (fate == HasExpired <==> overdue)
      && (fate == NotKnown <==> !overdue && (e.required.None? || Lowest(r.runnings).None?))
      && (fate == StillWaiting <==> !overdue && e.required.Some? && Lowest(r.runnings).Some? && !satisfied)
      && (fate == IsReleased <==> !overdue && satisfied && (r.dry || (e.ref != "" && r.queues(c))))
      && (fate == HasFailed <==> !overdue && satisfied && !r.dry && (e.ref == "" || !r.queues(c)))
    ensures var e, left, fate := q[c], ReleasedIn(q, r, ttl, WaitingIn(q))[c], FateIn(q, c, r, ttl);
      left == if r.dry then e
              else e.(status := if fate == HasExpired then Expired else if fate == IsReleased then Released else Waiting,
                      lastAttempt := if fate == HasFailed then Some(r.now) else e.lastAttempt)
  {
    hide Lowest, Compare;
  }

  /** A release that ends the wait of a packet parked at `t` for `v`. */
  predicate Ends(step: Step, c: string, t: Time, v: Version, ttl: Time) {
    && step.ReleaseSome? && !step.release.dry
    && (Overdue(t, step.release.now, ttl) || (Satisfies(step.release.runnings, Some(v)) && step.release.queues(c)))
  }

  /** The first of them decides how: expired when it finds the packet overdue, released otherwise. */
  function EndsAs(steps: seq<Step>, c: string, t: Time, v: Version, ttl: Time): Status {
    if steps == [] then Waiting
    else if Ends(steps[0], c, t, v, ttl) then if Overdue(t, steps[0].release.now, ttl) then Expired else Released
    else EndsAs(steps[1..], c, t, v, ttl)
  }

  /** Waiting, as it was parked. */
  predicate WaitsFor(q: Queue, c: string, ref: string, v: Version, t: Time) {
    c in q && q[c].ref == ref && q[c].required == Some(v) && q[c].parkedAt == t && q[c].status == Waiting
  }

  lemma StepOnWaiting(s: State, step: Step, rules: Rules, c: string, ref: string, v: Version, t: Time)
    requires Enabled(s, step) && WaitsFor(s.entries, c, ref, v, t) && ref != "" && c !in s.sent
    ensures var s' := Apply(s, step, rules);
      if Ends(step, c, t, v, rules.ttl)
      then c in s'.entries && s'.entries[c].status == (if Overdue(t, step.release.now, rules.ttl) then Expired else Released)
           && (c in s'.sent <==> s'.entries[c].status == Released)
      else WaitsFor(s'.entries, c, ref, v, t) && c !in s'.sent
  {
    if step.ReleaseSome? {
      assert c in WaitingIn(s.entries) && c in step.order;
      LeftExactly(s.entries, step.release, rules.ttl, c);
      SentMeaning(s.entries, step.order, step.release, rules.ttl);
      hide Lowest, Compare, Sent, ListsWaiting, FateIn, Overdue, Satisfies;
    }
  }

  lemma {:induction false} OverStays(s: State, steps: seq<Step>, rules: Rules, c: string)
    requires Play(s, steps, rules).Some? && c in s.entries && s.entries[c].status != Waiting
    ensures var now := Play(s, steps, rules).value;
      c in now.entries && now.entries[c] == s.entries[c] && (c in now.sent <==> c in s.sent)
    decreases |steps|
  {
    if steps != [] {
      StepFollows(s, steps[0], rules);
      if steps[0].ReleaseSome? {
        SentMeaning(s.entries, steps[0].order, steps[0].release, rules.ttl);
        assert c !in WaitingIn(s.entries);
      }
      OverStays(Apply(s, steps[0], rules), steps[1..], rules, c);
    }
  }

  lemma {:induction false} WaitEnds(s: State, steps: seq<Step>, rules: Rules, c: string, ref: string, v: Version, t: Time)
    requires Play(s, steps, rules).Some? && WaitsFor(s.entries, c, ref, v, t) && ref != "" && c !in s.sent
    ensures var now := Play(s, steps, rules).value;
      && c in now.entries && now.entries[c].status == EndsAs(steps, c, t, v, rules.ttl)
      && (c in now.sent <==> now.entries[c].status == Released)
    decreases |steps|
  {
    if steps != [] {
      StepOnWaiting(s, steps[0], rules, c, ref, v, t);
      hide Apply, Enabled, Ends, Overdue;
      var next := Apply(s, steps[0], rules);
      if Ends(steps[0], c, t, v, rules.ttl) {
        OverStays(next, steps[1..], rules, c);
      } else {
        WaitEnds(next, steps[1..], rules, c, ref, v, t);
      }
    }
  }

  /** The round trip. A packet parked for a version, whatever is parked and released after it: it is waiting as
      long as no release that is not a dry run finds it overdue, or finds every pod at least at the version
      and gets it queued; the first that does ends the wait, and it has been sent exactly when released. */
  lemma ParkedComesBack(s: State, steps: seq<Step>, rules: Rules, c: string, ref: string, v: Version, t: Time)
    requires AnswerTo(s.entries, rules, c, ref, Some(v)) == Added && c !in s.sent
    requires Play(s, [ParkOne(c, ref, Some(v), t)] + steps, rules).Some?
    ensures var now := Play(s, [ParkOne(c, ref, Some(v), t)] + steps, rules).value;
      && c in now.entries && now.entries[c].ref == ref && now.entries[c].required == Some(v) && now.entries[c].parkedAt == t
      && now.entries[c].status == EndsAs(steps, c, t, v, rules.ttl)
      && (c in now.sent <==> now.entries[c].status == Released)
  {
    var first := ParkOne(c, ref, Some(v), t);
    assert ([first] + steps)[0] == first && ([first] + steps)[1..] == steps;
    var parked := Apply(s, first, rules);
    assert WaitsFor(parked.entries, c, ref, v, t);
    assert Play(parked, steps, rules) == Play(s, [first] + steps, rules);
    WaitEnds(parked, steps, rules, c, ref, v, t);
    RunFollows(parked, steps, rules);
    hide Play, Apply;
  }

  /** A packet sent by a release can land on any pod: each runs at least the version it waited for, unless
      that version carries a counter and the lowest build is a bare version tied with a numbered one. */
  lemma SentIsDeployed(q: Queue, order: seq<string>, r: Release, ttl: Time, c: string, v: Version, m: Option<Version>)
    requires (forall d | d in order :: d in q) && NoRepeats(order) && c in Sent(q, order, r, ttl)
    requires c in q && q[c].required == Some(v) && m in r.runnings && (v.build.None? || !BareTie(r.runnings))
    ensures m.Some? && Compare(m.value, v) >= 0
  {
    SentMeaning(q, order, r, ttl);
    hide Lowest, Sent, Compare, BareTie;
    LowestMeaning(r.runnings);
    if v.build.None? {
      LowestIsFloor(r.runnings, v, m);
    } else {
      FloorIsSafeExactly(r.runnings);
      assert Compare(Lowest(r.runnings).value, v) >= 0;
    }
  }

  /** A dry run changes nothing, and its lines are those of the run in which every attempt succeeds. */
  lemma DryRunPredicts(q: Queue, r: Release, order: seq<string>, ttl: Time)
    requires ListsWaiting(order, q) && !r.dry
    ensures ReleasedIn(q, r.(dry := true), ttl, WaitingIn(q)) == q && Sent(q, order, r.(dry := true), ttl) == []
    ensures (forall c | c in order && FateIn(q, c, r.(dry := true), ttl) == IsReleased :: q[c].ref != "" && r.queues(c))
      <==> Lines(q, order, r.(dry := true), ttl) == Lines(q, order, r, ttl)
  {
    var d := r.(dry := true);
    assert ReleasedIn(q, d, ttl, WaitingIn(q)) == q;
    if Lines(q, order, d, ttl) == Lines(q, order, r, ttl) {
      forall c | c in order && FateIn(q, c, d, ttl) == IsReleased
        ensures q[c].ref != "" && r.queues(c)
      {
        var i :| 0 <= i < |order| && order[i] == c;
        assert Lines(q, order, d, ttl)[i] == Lines(q, order, r, ttl)[i];
      }
    }
  }
}
