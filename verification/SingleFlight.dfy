/** One investigation per fingerprint at a time: the reference-counted gate of src/dlt/single_flight.py. */
module SingleFlight {
  import opened Options
  import Machines

  type Fingerprint = string
  type Request = nat

  /** An entry's lock and reference count. */
  datatype Cell = Cell(refs: int, locked: bool)

  datatype Status = Waiting | Holding | GaveUp

  /** What a request inside the gate knows: its fingerprint, the entry it was given, how far it is. */
  datatype Ticket<E> = Ticket(fingerprint: Fingerprint, entry: E, status: Status)

  /** The table of entries, the entries ever made, and the requests inside. An entry that has left
      the table may still be in the hands of a request. */
  datatype Gate<!E> = Gate(entries: map<Fingerprint, E>, cells: map<E, Cell>, inside: map<Request, Ticket<E>>)

  // ---------------------------------------------------------------------
  // Steps
  // ---------------------------------------------------------------------

  predicate MayEnter<E>(g: Gate<E>, r: Request, fp: Fingerprint, made: E) {
    r !in g.inside && if fp in g.entries then g.entries[fp] in g.cells else made !in g.cells
  }

  /** Takes the fingerprint's entry, or makes one, and counts itself in. */
  function Enter<E>(g: Gate<E>, r: Request, fp: Fingerprint, made: E): Gate<E>
    requires MayEnter(g, r, fp, made)
  {
    var e := if fp in g.entries then g.entries[fp] else made;
    var cell := if fp in g.entries then g.cells[e] else Cell(0, false);
    Gate(g.entries[fp := e], g.cells[e := cell.(refs := cell.refs + 1)], g.inside[r := Ticket(fp, e, Waiting)])
  }

  predicate Known<E>(g: Gate<E>, r: Request) { r in g.inside && g.inside[r].entry in g.cells }

  predicate MayAcquire<E>(g: Gate<E>, r: Request) {
    Known(g, r) && g.inside[r].status == Waiting && !g.cells[g.inside[r].entry].locked
  }

  function Acquire<E>(g: Gate<E>, r: Request): Gate<E>
    requires MayAcquire(g, r)
  {
    var t := g.inside[r];
    g.(cells := g.cells[t.entry := g.cells[t.entry].(locked := true)], inside := g.inside[r := t.(status := Holding)])
  }

  predicate MayGiveUp<E>(g: Gate<E>, r: Request) { Known(g, r) && g.inside[r].status == Waiting }

  function GiveUp<E>(g: Gate<E>, r: Request): Gate<E>
    requires MayGiveUp(g, r)
  {
    g.(inside := g.inside[r := g.inside[r].(status := GaveUp)])
  }

  /** Leaves, from any status: releases what it holds, counts itself out, and drops an entry nobody
      is left in, unless the table has another by then. */
  function Exit<E>(g: Gate<E>, r: Request): Gate<E>
    requires Known(g, r)
  {
    var t := g.inside[r];
    var cell := g.cells[t.entry];
    var left := Cell(cell.refs - 1, cell.locked && t.status != Holding);
    var drop := left.refs <= 0 && t.fingerprint in g.entries && g.entries[t.fingerprint] == t.entry;
    Gate(if drop then g.entries - {t.fingerprint} else g.entries, g.cells[t.entry := left], g.inside - {r})
  }

  // ---------------------------------------------------------------------
  // The invariant
  // ---------------------------------------------------------------------

  function InsideOf<E>(g: Gate<E>, fp: Fingerprint): set<Request> {
    set r | r in g.inside && g.inside[r].fingerprint == fp
  }

  predicate Holds<E>(g: Gate<E>, r: Request) { r in g.inside && g.inside[r].status == Holding }

  /** Every request inside is in the entry the table has for its fingerprint. */
  ghost predicate TicketsCurrent<E>(g: Gate<E>) {
    && (forall r | r in g.inside :: g.inside[r].fingerprint in g.entries && g.entries[g.inside[r].fingerprint] == g.inside[r].entry)
    && (forall fp | fp in g.entries :: g.entries[fp] in g.cells)
    && (forall a, b | a in g.entries && b in g.entries && g.entries[a] == g.entries[b] :: a == b)
  }

  /** A fingerprint has an entry exactly while requests of it are inside, and the entry counts them. */
  ghost predicate CountedAt<E>(g: Gate<E>, f: Fingerprint) {
    if f in g.entries then g.entries[f] in g.cells && g.cells[g.entries[f]].refs == |InsideOf(g, f)| > 0
    else InsideOf(g, f) == {}
  }

  ghost predicate Counted<E>(g: Gate<E>) {
    forall fp :: CountedAt(g, fp)
  }

  /** An entry is locked exactly while one request of its fingerprint holds it. */
  ghost predicate Exclusive<E>(g: Gate<E>) {
    && (forall a, b | Holds(g, a) && Holds(g, b) && g.inside[a].fingerprint == g.inside[b].fingerprint :: a == b)
    && (forall r | Holds(g, r) && g.inside[r].entry in g.cells :: g.cells[g.inside[r].entry].locked)
    && (forall fp | fp in g.entries && g.entries[fp] in g.cells && g.cells[g.entries[fp]].locked ::
          exists r :: Holds(g, r) && g.inside[r].fingerprint == fp)
  }

  ghost predicate Sound<E>(g: Gate<E>) { TicketsCurrent(g) && Counted(g) && Exclusive(g) }

  lemma CountIn(a: set<Request>, b: set<Request>, r: Request)
    requires b == a + {r} && r !in a
    ensures |b| == |a| + 1
  {
  }

  /** A step's effect on who is inside a fingerprint's gate. */
  lemma WhoIsInside<E>(g: Gate<E>, r: Request, fp: Fingerprint, made: E, f: Fingerprint)
    ensures MayEnter(g, r, fp, made) ==>
      r !in InsideOf(g, f) && InsideOf(Enter(g, r, fp, made), f) == if f == fp then InsideOf(g, f) + {r} else InsideOf(g, f)
    ensures MayAcquire(g, r) ==> InsideOf(Acquire(g, r), f) == InsideOf(g, f)
    ensures MayGiveUp(g, r) ==> InsideOf(GiveUp(g, r), f) == InsideOf(g, f)
    ensures Known(g, r) ==> InsideOf(Exit(g, r), f) == InsideOf(g, f) - {r}
    ensures Known(g, r) ==> (r in InsideOf(g, f) <==> f == g.inside[r].fingerprint)
  {
  }

  lemma EnterCounts<E>(g: Gate<E>, r: Request, fp: Fingerprint, made: E)
    requires TicketsCurrent(g) && Counted(g) && MayEnter(g, r, fp, made)
    ensures Counted(Enter(g, r, fp, made))
  {
    var g' := Enter(g, r, fp, made);
    forall f
      ensures CountedAt(g', f)
    {
      assert CountedAt(g, f);
      WhoIsInside(g, r, fp, made, f);
      hide InsideOf, Counted;
    }
  }

  /** Entering changes no lock. */
  lemma EnterLocks<E>(g: Gate<E>, r: Request, fp: Fingerprint, made: E)
    requires TicketsCurrent(g) && MayEnter(g, r, fp, made)
    ensures var g' := Enter(g, r, fp, made);
      && (forall q :: Holds(g', q) <==> Holds(g, q))
      && (forall q | Holds(g, q) :: g'.inside[q] == g.inside[q])
      && (forall e | e in g.cells :: e in g'.cells && g'.cells[e].locked == g.cells[e].locked)
      && (forall f | f in g'.entries && g'.entries[f] in g'.cells && g'.cells[g'.entries[f]].locked ::
            f in g.entries && g.entries[f] == g'.entries[f] && g.entries[f] in g.cells && g.cells[g.entries[f]].locked)
  {
  }

  lemma EnterExcludes<E>(g: Gate<E>, r: Request, fp: Fingerprint, made: E)
    requires TicketsCurrent(g) && Exclusive(g) && MayEnter(g, r, fp, made)
    ensures Exclusive(Enter(g, r, fp, made))
  {
    EnterLocks(g, r, fp, made);
    assert forall q | Holds(g, q) :: q in g.inside && g.inside[q].entry in g.cells;
    hide Holds, Enter;
  }

  lemma EnterKeeps<E>(g: Gate<E>, r: Request, fp: Fingerprint, made: E)
    requires Sound(g) && MayEnter(g, r, fp, made)
    ensures Sound(Enter(g, r, fp, made))
  {
    EnterExcludes(g, r, fp, made);
    EnterCounts(g, r, fp, made);
    hide Exclusive;
  }

  lemma AcquireCounts<E>(g: Gate<E>, r: Request)
    requires TicketsCurrent(g) && Counted(g) && MayAcquire(g, r)
    ensures Counted(Acquire(g, r))
  {
    var g' := Acquire(g, r);
    forall f
      ensures CountedAt(g', f)
    {
      assert CountedAt(g, f);
      WhoIsInside(g, r, "", g.inside[r].entry, f);
      hide InsideOf, Counted;
    }
  }

  lemma AcquireExcludes<E>(g: Gate<E>, r: Request)
    requires TicketsCurrent(g) && Exclusive(g) && MayAcquire(g, r)
    ensures Exclusive(Acquire(g, r))
  {
    var g' := Acquire(g, r);
    assert forall q :: Holds(g', q) <==> Holds(g, q) || q == r;
    hide Holds;
  }

  lemma AcquireKeeps<E>(g: Gate<E>, r: Request)
    requires Sound(g) && MayAcquire(g, r)
    ensures Sound(Acquire(g, r))
  {
    AcquireExcludes(g, r);
    AcquireCounts(g, r);
    hide Exclusive;
  }

  lemma GiveUpCounts<E>(g: Gate<E>, r: Request)
    requires TicketsCurrent(g) && Counted(g) && MayGiveUp(g, r)
    ensures Counted(GiveUp(g, r))
  {
    var g' := GiveUp(g, r);
    forall f
      ensures CountedAt(g', f)
    {
      assert CountedAt(g, f);
      WhoIsInside(g, r, "", g.inside[r].entry, f);
      hide InsideOf, Counted;
    }
  }

  lemma GiveUpExcludes<E>(g: Gate<E>, r: Request)
    requires TicketsCurrent(g) && Exclusive(g) && MayGiveUp(g, r)
    ensures Exclusive(GiveUp(g, r))
  {
    var g' := GiveUp(g, r);
    assert forall q :: Holds(g', q) <==> Holds(g, q);
    hide Holds;
  }

  lemma GiveUpKeeps<E>(g: Gate<E>, r: Request)
    requires Sound(g) && MayGiveUp(g, r)
    ensures Sound(GiveUp(g, r))
  {
    GiveUpExcludes(g, r);
    GiveUpCounts(g, r);
    hide Exclusive;
  }

  lemma ExitCounts<E>(g: Gate<E>, r: Request)
    requires TicketsCurrent(g) && Counted(g) && Known(g, r)
    ensures Counted(Exit(g, r))
  {
    var g' := Exit(g, r);
    WhoIsInside(g, r, "", g.inside[r].entry, g.inside[r].fingerprint);
    CountIn(InsideOf(Exit(g, r), g.inside[r].fingerprint), InsideOf(g, g.inside[r].fingerprint), r);
    forall f
      ensures CountedAt(g', f)
    {
      assert CountedAt(g, f);
      WhoIsInside(g, r, "", g.inside[r].entry, f);
      hide InsideOf, Counted;
    }
  }

  lemma ExitExcludes<E>(g: Gate<E>, r: Request)
    requires TicketsCurrent(g) && Exclusive(g) && Known(g, r)
    ensures Exclusive(Exit(g, r))
  {
    var g' := Exit(g, r);
    assert forall q :: Holds(g', q) <==> Holds(g, q) && q != r;
    hide Holds;
  }

  lemma ExitKeeps<E>(g: Gate<E>, r: Request)
    requires Sound(g) && Known(g, r)
    ensures Sound(Exit(g, r))
  {
    ExitExcludes(g, r);
    ExitCounts(g, r);
    hide Exclusive;
    var g' := Exit(g, r);
    forall q | q in g'.inside
      ensures g'.inside[q].fingerprint in g'.entries
    {
      assert q in InsideOf(g', g'.inside[q].fingerprint) && CountedAt(g', g'.inside[q].fingerprint);
    }
  }

  // ---------------------------------------------------------------------
  // Every interleaving
  // ---------------------------------------------------------------------

  datatype Step<E> = Arrive(r: Request, fingerprint: Fingerprint, made: E) | Get(r: Request) | TimeOut(r: Request) | Leave(r: Request)

  predicate Enabled<E>(g: Gate<E>, step: Step<E>) {
    match step
    case Arrive(r, fp, made) => MayEnter(g, r, fp, made)
    case Get(r) => MayAcquire(g, r)
    case TimeOut(r) => MayGiveUp(g, r)
    case Leave(r) => Known(g, r)
  }

  function Apply<E>(g: Gate<E>, step: Step<E>): Gate<E>
    requires Enabled(g, step)
  {
    match step
    case Arrive(r, fp, made) => Enter(g, r, fp, made)
    case Get(r) => Acquire(g, r)
    case TimeOut(r) => GiveUp(g, r)
    case Leave(r) => Exit(g, r)
  }

  function Next<E>(): (Gate<E>, Step<E>) -> Option<Gate<E>> {
    (g: Gate<E>, step: Step<E>) => if Enabled(g, step) then Some(Apply(g, step)) else None
  }

  function Play<E>(g: Gate<E>, steps: seq<Step<E>>): Option<Gate<E>> { Machines.After(Next(), g, steps) }

  /** A wait ends once: who holds the gate or gave up on it stays so until he leaves. */
  lemma StatusSettles<E>(g: Gate<E>, step: Step<E>, r: Request)
    requires Enabled(g, step) && r in g.inside && g.inside[r].status != Waiting
    ensures if step == Leave(r) then r !in Apply(g, step).inside else r in Apply(g, step).inside && Apply(g, step).inside[r] == g.inside[r]
  {
  }

  lemma {:induction false} StaysSound<E>(g: Gate<E>, steps: seq<Step<E>>)
    requires Sound(g) && Play(g, steps).Some?
    ensures Sound(Play(g, steps).value)
    decreases |steps|
  {
    if steps != [] {
      hide Sound;
      match steps[0] {
        case Arrive(r, fp, made) => EnterKeeps(g, r, fp, made);
        case Get(r) => AcquireKeeps(g, r);
        case TimeOut(r) => GiveUpKeeps(g, r);
        case Leave(r) => ExitKeeps(g, r);
      }
      StaysSound(Apply(g, steps[0]), steps[1..]);
    }
  }

  lemma EmptyIsSound<E>(g: Gate<E>)
    requires g == Gate(map[], map[], map[])
    ensures Sound(g)
  {
  }

  /** From an empty gate, whatever arrives, acquires, times out and leaves: a fingerprint has an entry
      exactly while requests of it are inside, its count is their number, and two requests that hold
      the gate of one fingerprint are one request -- whichever entries they were given. */
  lemma OneHolder<E>(steps: seq<Step<E>>, fp: Fingerprint, a: Request, b: Request)
    requires Play(Gate(map[], map[], map[]), steps).Some?
    ensures var g: Gate<E> := Play(Gate(map[], map[], map[]), steps).value;
      && (fp in g.entries <==> InsideOf(g, fp) != {})
      && (fp in g.entries ==> g.entries[fp] in g.cells && g.cells[g.entries[fp]].refs == |InsideOf(g, fp)|)
      && (Holds(g, a) && Holds(g, b) && g.inside[a].fingerprint == g.inside[b].fingerprint ==> a == b)
  {
    var g0: Gate<E> := Gate(map[], map[], map[]);
    EmptyIsSound(g0);
    StaysSound(g0, steps);
    assert CountedAt(Play(g0, steps).value, fp);
  }

  // ---------------------------------------------------------------------
  // The table itself
  // ---------------------------------------------------------------------

  class Entry {
    var refs: int
    var locked: bool

    constructor ()
      ensures refs == 0 && !locked
    {
      refs, locked := 0, false;
    }
  }

  /** The module's dictionary of entries; every call keeps the gate sound. `inside` stands for the local
      variables of the coroutines that are in the gate. */
  class FlightTable {
    var entries: map<Fingerprint, Entry>
    var inside: map<Request, Ticket<Entry>>
    ghost var made: set<Entry>

    ghost predicate Tracked()
      reads this
    {
      (forall fp | fp in entries :: entries[fp] in made) && (forall r | r in inside :: inside[r].entry in made)
    }

    ghost predicate Valid()
      reads this, made
    {
      Tracked() && Sound(State())
    }

    ghost function State(): Gate<Entry>
      reads this, made
    {
      Gate(entries, map e | e in made :: Cell(e.refs, e.locked), inside)
    }

    constructor ()
      ensures Valid() && State() == Gate(map[], map[], map[])
    {
      entries, inside, made := map[], map[], {};
      new;
      assert State() == Gate(map[], map[], map[]);
      EmptyIsSound(State());
    }

    /** The fingerprint's entry, made if there is none. */
    method EntryFor(fp: Fingerprint) returns (entry: Entry)
      requires Tracked()
      modifies this`entries, this`made
      ensures Tracked() && entries == old(entries)[fp := entry] && made == old(made) + {entry} && fresh(made - old(made))
      ensures if fp in old(entries) then entry == old(entries)[fp] else entry !in old(made) && entry.refs == 0 && !entry.locked
    {
      if fp in entries {
        entry := entries[fp];
      } else {
        entry := new Entry();
        entries := entries[fp := entry];
        made := made + {entry};
      }
    }

    /** The start of `flight`: everything up to the wait, which is one step of the event loop. */
    method Arrives(r: Request, fp: Fingerprint)
      requires Valid() && r !in inside
      modifies this, made
      ensures Valid() && old(made) <= made && fresh(made - old(made))
      ensures fp in entries
      ensures MayEnter(old(State()), r, fp, entries[fp]) && State() == Enter(old(State()), r, fp, entries[fp])
    {
      hide Sound;
      ghost var before := State();
      var entry := EntryFor(fp);
      entry.refs := entry.refs + 1;
      inside := inside[r := Ticket(fp, entry, Waiting)];
      assert State() == Enter(before, r, fp, entry);
      EnterKeeps(before, r, fp, entry);
    }

    /** The lock is granted to a waiting request. */
    method Acquires(r: Request) returns (acquired: bool)
      requires Valid() && r in inside && inside[r].status == Waiting
      modifies this, made
      ensures Valid() && made == old(made)
      ensures acquired == MayAcquire(old(State()), r)
      ensures State() == if MayAcquire(old(State()), r) then Acquire(old(State()), r) else old(State())
    {
      hide Sound;
      var entry := inside[r].entry;
      acquired := !entry.locked;
      if acquired {
        ghost var before := State();
        entry.locked := true;
        inside := inside[r := inside[r].(status := Holding)];
        assert State().cells == Acquire(before, r).cells;
        AcquireKeeps(before, r);
      }
    }

    method GivesUp(r: Request)
      requires Valid() && r in inside && inside[r].status == Waiting
      modifies this
      ensures Valid() && made == old(made)
      ensures MayGiveUp(old(State()), r) && State() == GiveUp(old(State()), r)
    {
      hide Sound;
      ghost var before := State();
      inside := inside[r := inside[r].(status := GaveUp)];
      assert State() == GiveUp(before, r);
      GiveUpKeeps(before, r);
    }

    /** The `finally` of `flight`. */
    method Exits(r: Request)
      requires Valid() && r in inside
      modifies this, made
      ensures Valid() && made == old(made)
      ensures Known(old(State()), r) && State() == Exit(old(State()), r)
    {
      hide Sound;
      ghost var before := State();
      var Ticket(fp, entry, status) := inside[r];
      if status == Holding {
        entry.locked := false;
      }
      entry.refs := entry.refs - 1;
      inside := inside - {r};
      if entry.refs <= 0 && fp in entries && entries[fp] == entry {
        entries := entries - {fp};
      }
      assert State().cells == Exit(before, r).cells;
      assert State().entries == Exit(before, r).entries;
      assert State() == Exit(before, r);
      ExitKeeps(before, r);
    }
  }
}
