/** The sliding-window limiter of src/api/routes.py. */
module RateLimiter {
  type Time = real
  type Address = string

  const EvictAbove: nat := 1000

  /** The stamps less than a window old. */
  function Recent(stamps: seq<Time>, now: Time, window: Time): seq<Time> {
    if stamps == [] then []
    else (if now - stamps[0] < window then [stamps[0]] else []) + Recent(stamps[1..], now, window)
  }

  /** The requests among `h` less than a window before `now`. */
  function Within(h: seq<Time>, now: Time, window: Time): set<nat> { set i: nat | i < |h| && now - h[i] < window }

  lemma {:induction false} RecentCounts(h: seq<Time>, now: Time, window: Time)
    ensures |Recent(h, now, window)| == |Within(h, now, window)|
    decreases |h|
  {
    if h != [] {
      var n := |h| - 1;
      RecentCounts(h[..n], now, window);
      assert h == h[..n] + [h[n]];
      RecentAppend(h[..n], [h[n]], now, window);
      assert [h[n]][1..] == [];
      if now - h[n] < window {
        assert Within(h, now, window) == Within(h[..n], now, window) + {n};
      } else {
        assert Within(h, now, window) == Within(h[..n], now, window);
      }
    }
  }

  function Of(stamps: map<Address, seq<Time>>, a: Address): seq<Time> { if a in stamps then stamps[a] else [] }

  /** Nothing, or nothing within a window: what is dropped when the table grows. */
  predicate Stale(stamps: seq<Time>, now: Time, window: Time) { forall i | 0 <= i < |stamps| :: now - stamps[i] > window }

  lemma {:induction false} RecentAppend(a: seq<Time>, b: seq<Time>, now: Time, window: Time)
    ensures Recent(a + b, now, window) == Recent(a, now, window) + Recent(b, now, window)
  {
    if a == [] {
      assert a + b == b;
    } else {
      assert (a + b)[1..] == a[1..] + b;
      RecentAppend(a[1..], b, now, window);
    }
  }

  /** Pruning early loses nothing that matters later. */
  lemma {:induction false} PruneIsHarmless(stamps: seq<Time>, earlier: Time, now: Time, window: Time)
    requires earlier <= now
    ensures Recent(Recent(stamps, earlier, window), now, window) == Recent(stamps, now, window)
  {
    if stamps != [] {
      PruneIsHarmless(stamps[1..], earlier, now, window);
      var rest := Recent(stamps[1..], earlier, window);
      if earlier - stamps[0] < window {
        assert ([stamps[0]] + rest)[1..] == rest;
      } else {
        assert Recent(stamps, earlier, window) == rest;
        assert Recent(stamps, now, window) == Recent(stamps[1..], now, window);
      }
    }
  }

  lemma {:induction false} StaleHasNoRecent(stamps: seq<Time>, now: Time, window: Time)
    requires Stale(stamps, now, window)
    ensures Recent(stamps, now, window) == []
  {
    if stamps != [] {
      StaleHasNoRecent(stamps[1..], now, window);
    }
  }

  // ---------------------------------------------------------------------
  // What the full history satisfies
  // ---------------------------------------------------------------------

  predicate Sorted(h: seq<Time>) { forall i, j | 0 <= i < j < |h| :: h[i] <= h[j] }

  /** Any `limit + 1` accepted requests in a row span at least a window. */
  ghost predicate Spaced(h: seq<Time>, limit: int, window: Time) {
    if limit <= 0 then h == [] else forall i, j | 0 <= i && i + limit == j < |h| :: h[j] - h[i] >= window
  }

  lemma {:induction false} RecentTail(h: seq<Time>, i: nat, now: Time, window: Time)
    requires i <= |h| && forall j | i <= j < |h| :: now - h[j] < window
    ensures |Recent(h, now, window)| >= |h| - i
  {
    if h != [] {
      RecentTail(h[1..], if i == 0 then 0 else i - 1, now, window);
    }
  }

  lemma StaysSpaced(h: seq<Time>, now: Time, limit: int, window: Time)
    requires Sorted(h) && Spaced(h, limit, window) && (forall i | 0 <= i < |h| :: h[i] <= now)
    requires |Recent(h, now, window)| < limit
    ensures Sorted(h + [now]) && Spaced(h + [now], limit, window)
  {
    var h' := h + [now];
    if |h| >= limit {
      var i := |h| - limit;
      if now - h[i] < window {
        RecentTail(h, i, now, window);
      }
    }
    forall i, j | 0 <= i && i + limit == j < |h'|
      ensures h'[j] - h'[i] >= window
    {
      if j < |h| {
        assert h[j] - h[i] >= window;
      }
    }
  }

  /** The accepted requests of a stretch of time. */
  function During(h: seq<Time>, from: Time, window: Time): set<nat> {
    set i: nat | i < |h| && from <= h[i] < from + window
  }

  lemma Interval(s: set<nat>, lo: nat, hi: nat)
    requires lo <= hi && forall i | i in s :: lo <= i < hi
    ensures |s| <= hi - lo
    decreases hi - lo
  {
    if lo == hi {
      assert s == {};
    } else {
      Interval(s - {lo}, lo + 1, hi);
    }
  }

  lemma FarApart(h: seq<Time>, limit: int, window: Time, i: nat, j: nat)
    requires Sorted(h) && Spaced(h, limit, window) && limit > 0 && i + limit <= j < |h|
    ensures h[j] - h[i] >= window
  {
    assert h[i + limit] - h[i] >= window;
  }

  /** No window of that length holds more than the limit. */
  lemma WindowHoldsLimit(h: seq<Time>, limit: int, window: Time, from: Time)
    requires Sorted(h) && Spaced(h, limit, window)
    ensures |During(h, from, window)| <= if limit > 0 then limit else 0
  {
    var s := During(h, from, window);
    if s != {} {
      var lo := Least(s);
      assert limit > 0;
      forall i | i in s
        ensures lo <= i < lo + limit
      {
        if i >= lo + limit {
          FarApart(h, limit, window, lo, i);
        }
      }
      Interval(s, lo, lo + limit);
    }
  }

  ghost function Least(s: set<nat>): (m: nat)
    requires s != {}
    ensures m in s && forall i | i in s :: m <= i
  {
    var x :| x in s;
    if s == {x} then x else
      var m := Least(s - {x});
      assert forall i | i in s :: i == x || i in s - {x};
      if m < x then m else x
  }

  // ---------------------------------------------------------------------
  // The limiter
  // ---------------------------------------------------------------------

  /** What is kept of an address decides like its whole history does, and the history is as it should be. */
  ghost predicate Good(kept: seq<Time>, all: seq<Time>, clock: Time, limit: int, window: Time) {
    && Recent(kept, clock, window) == Recent(all, clock, window)
    && Sorted(all) && Spaced(all, limit, window) && forall i | 0 <= i < |all| :: all[i] <= clock
  }

  lemma GoodLater(kept: seq<Time>, all: seq<Time>, earlier: Time, now: Time, limit: int, window: Time)
    requires Good(kept, all, earlier, limit, window) && earlier <= now
    ensures Good(kept, all, now, limit, window)
    ensures Stale(kept, now, window) ==> Good([], all, now, limit, window)
  {
    PruneIsHarmless(kept, earlier, now, window);
    PruneIsHarmless(all, earlier, now, window);
    if Stale(kept, now, window) {
      StaleHasNoRecent(kept, now, window);
    }
  }

  /** Pruning, and adding an accepted request, keep it so; and the decision is the history's. */
  lemma GoodNext(kept: seq<Time>, all: seq<Time>, now: Time, limit: int, window: Time)
    requires Good(kept, all, now, limit, window)
    ensures |Recent(kept, now, window)| == |Recent(all, now, window)|
    ensures Good(Recent(kept, now, window), all, now, limit, window)
    ensures |Recent(kept, now, window)| < limit ==> Good(Recent(kept, now, window) + [now], all + [now], now, limit, window)
  {
    var recent := Recent(kept, now, window);
    PruneIsHarmless(kept, now, now, window);
    if |recent| < limit {
      StaysSpaced(all, now, limit, window);
      RecentAppend(recent, [now], now, window);
      RecentAppend(all, [now], now, window);
    }
  }

  class Limiter {
    const limit: int
    const window: Time
    var stamps: map<Address, seq<Time>>
    ghost var history: map<Address, seq<Time>>       // every accepted, non-exempt request
    ghost var clock: Time

    ghost predicate Valid()
      reads this
    {
      forall a :: Good(Of(stamps, a), Of(history, a), clock, limit, window)
    }

    constructor (limit: int, window: Time, now: Time)
      ensures Valid() && this.limit == limit && this.window == window && clock == now && history == map[]
    {
      this.limit, this.window := limit, window;
      stamps, history, clock := map[], map[], now;
    }

    /** Whatever has been asked so far, no window has seen more than the limit from one address. */
    lemma AtMostLimitPerWindow(a: Address, from: Time)
      requires Valid()
      ensures |During(Of(history, a), from, window)| <= if limit > 0 then limit else 0
    {
      assert Good(Of(stamps, a), Of(history, a), clock, limit, window);
      WindowHoldsLimit(Of(history, a), limit, window, from);
    }

    /** Drops the addresses with nothing recent, when there are many. */
    method Evict(now: Time)
      requires Valid() && clock <= now
      modifies this`stamps, this`clock
      ensures Valid() && clock == now
    {
      hide Good, Stale;
      ghost var before := stamps;
      forall a
        ensures Good(Of(stamps, a), Of(history, a), now, limit, window)
        ensures Stale(Of(stamps, a), now, window) ==> Good([], Of(history, a), now, limit, window)
      {
        GoodLater(Of(stamps, a), Of(history, a), clock, now, limit, window);
      }
      if |stamps| > EvictAbove {
        stamps := map a | a in stamps && !Stale(stamps[a], now, window) :: stamps[a];
      }
      clock := now;
      assert forall a :: Of(stamps, a) == Of(before, a) || (Of(stamps, a) == [] && Stale(Of(before, a), now, window));
    }

    /** Accepts exactly when fewer than the limit of this address's accepted requests, out of all there
        ever were, are less than a window old; an exempt address is always accepted and never counted. */
    method Admit(a: Address, exempt: bool, now: Time) returns (accepted: bool)
      requires Valid() && clock <= now
      modifies this
      ensures Valid()
      ensures accepted == (exempt || |Within(Of(old(history), a), now, window)| < limit)
      ensures history == if accepted && !exempt then old(history)[a := Of(old(history), a) + [now]] else old(history)
    {
      hide Good, Recent;
      if exempt {
        return true;
      }
      Evict(now);
      var recent := Recent(Of(stamps, a), now, window);
      GoodNext(Of(stamps, a), Of(history, a), now, limit, window);
      RecentCounts(Of(history, a), now, window);
      accepted := |recent| < limit;
      ghost var before, past := stamps, history;
      stamps := stamps[a := if accepted then recent + [now] else recent];
      history := if accepted then history[a := Of(history, a) + [now]] else history;
      forall b
        ensures Good(Of(stamps, b), Of(history, b), clock, limit, window)
      {
        assert Good(Of(before, b), Of(past, b), clock, limit, window);
      }
    }
  }
}
