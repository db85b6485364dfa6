/** The ordering of src/dlt/versions.py, on versions already parsed.

    `Compare` reports 0 for versions it cannot order (a bare `1.0.0` against any
    `1.0.0-release.n`), and that 0 is not transitive, so every result below goes through the
    strict part. */
module Versions {
  import opened Options

  datatype Version = Version(core: seq<nat>, snapshot: bool, build: Option<nat>)

  // ---------------------------------------------------------------------
  // Comparing two versions
  // ---------------------------------------------------------------------

  function Pad(core: seq<nat>, width: nat): (padded: seq<nat>)
    requires |core| <= width
    ensures |padded| == width
  {
    core + seq(width - |core|, _ => 0)
  }

  /** Python's `<` on two tuples of one length. */
  predicate TupleLess(x: seq<nat>, y: seq<nat>)
    requires |x| == |y|
  {
    |x| > 0 && (x[0] < y[0] || (x[0] == y[0] && TupleLess(x[1..], y[1..])))
  }

  function Width(a: Version, b: Version): nat { if |a.core| < |b.core| then |b.core| else |a.core| }

  function Compare(a: Version, b: Version): int {
    var left, right := Pad(a.core, Width(a, b)), Pad(b.core, Width(a, b));
    if left != right then (if TupleLess(left, right) then -1 else 1)
    else if a.snapshot != b.snapshot then (if a.snapshot then -1 else 1)
    else if a.build.Some? && b.build.Some? && a.build.value != b.build.value then
      (if a.build.value < b.build.value then -1 else 1)
    else 0
  }

  /** `compare` on what may not have parsed. */
  function CompareParsed(a: Option<Version>, b: Option<Version>): Option<int> {
    if a.None? || b.None? then None else Some(Compare(a.value, b.value))
  }

  function AtLeast(candidate: Option<Version>, required: Option<Version>): Option<bool> {
    var r := CompareParsed(candidate, required);
    if r.None? then None else Some(r.value >= 0)
  }

  function IsAhead(candidate: Option<Version>, baseline: Option<Version>): Option<bool> {
    var r := CompareParsed(candidate, baseline);
    if r.None? then None else Some(r.value > 0)
  }

  // ---------------------------------------------------------------------
  // What the comparison means
  // ---------------------------------------------------------------------

  /** The k-th component of a core, with as many zeros after it as anyone asks for. */
  function Component(core: seq<nat>, k: nat): nat { if k < |core| then core[k] else 0 }

  ghost predicate SameCore(a: seq<nat>, b: seq<nat>) {
    forall k: nat :: Component(a, k) == Component(b, k)
  }

  /** `k` is the first component in which the cores differ, and `a`'s is the smaller. */
  ghost predicate FirstBelow(a: seq<nat>, b: seq<nat>, k: nat) {
    Component(a, k) < Component(b, k) && forall m: nat | m < k :: Component(a, m) == Component(b, m)
  }

  ghost predicate CoreBelow(a: seq<nat>, b: seq<nat>) { exists k: nat :: FirstBelow(a, b, k) }

  /** The strict order: by core, then a snapshot before its release, then by build counters
      where both versions carry one. */
  ghost predicate Below(a: Version, b: Version) {
    || CoreBelow(a.core, b.core)
    || (SameCore(a.core, b.core) && a.snapshot && !b.snapshot)
    || (SameCore(a.core, b.core) && a.snapshot == b.snapshot
        && a.build.Some? && b.build.Some? && a.build.value < b.build.value)
  }

  lemma {:induction false} TupleLessMeaning(x: seq<nat>, y: seq<nat>)
    requires |x| == |y|
    ensures TupleLess(x, y) <==> exists k :: 0 <= k < |x| && x[k] < y[k] && x[..k] == y[..k]
  {
    if |x| > 0 {
      TupleLessMeaning(x[1..], y[1..]);
      if TupleLess(x, y) {
        if x[0] < y[0] {
          assert x[..0] == y[..0];
        } else {
          var k :| 0 <= k < |x[1..]| && x[1..][k] < y[1..][k] && x[1..][..k] == y[1..][..k];
          assert x[..k + 1] == [x[0]] + x[1..][..k] && y[..k + 1] == [y[0]] + y[1..][..k];
        }
      }
      if k :| 0 <= k < |x| && x[k] < y[k] && x[..k] == y[..k] {
        if k > 0 {
          assert x[0] == x[..k][0] == y[..k][0] == y[0];
          assert x[1..][..k - 1] == x[..k][1..] == y[..k][1..] == y[1..][..k - 1];
        }
      }
    }
  }

  lemma PaddedComponent(core: seq<nat>, width: nat, k: nat)
    requires |core| <= width
    ensures Component(Pad(core, width), k) == Component(core, k)
  {
  }

  lemma PaddedEqual(a: Version, b: Version)
    ensures Pad(a.core, Width(a, b)) == Pad(b.core, Width(a, b)) <==> SameCore(a.core, b.core)
  {
    var x, y := Pad(a.core, Width(a, b)), Pad(b.core, Width(a, b));
    if SameCore(a.core, b.core) {
      forall k | 0 <= k < |x|
        ensures x[k] == y[k]
      {
        assert Component(a.core, k) == Component(b.core, k);
      }
    }
    if x == y {
      forall k: nat
        ensures Component(a.core, k) == Component(b.core, k)
      {
        PaddedComponent(a.core, Width(a, b), k);
        PaddedComponent(b.core, Width(a, b), k);
      }
    }
  }

  lemma PaddedLess(a: Version, b: Version)
    ensures TupleLess(Pad(a.core, Width(a, b)), Pad(b.core, Width(a, b))) <==> CoreBelow(a.core, b.core)
  {
    var w := Width(a, b);
    var x, y := Pad(a.core, w), Pad(b.core, w);
    TupleLessMeaning(x, y);
    if k :| 0 <= k < |x| && x[k] < y[k] && x[..k] == y[..k] {
      forall m: nat | m < k
        ensures Component(a.core, m) == Component(b.core, m)
      {
        assert x[m] == x[..k][m] == y[..k][m] == y[m];
      }
      assert FirstBelow(a.core, b.core, k);
    }
    if k: nat :| FirstBelow(a.core, b.core, k) {
      assert k < w;
      forall m | 0 <= m < k
        ensures x[m] == y[m]
      {
        assert Component(a.core, m) == Component(b.core, m);
      }
      assert x[k] < y[k] && x[..k] == y[..k];
    }
  }

  lemma CoresAreOrdered(a: seq<nat>, b: seq<nat>, n: nat)
    requires forall m: nat | m < n :: Component(a, m) == Component(b, m)
    requires n <= |a| || n <= |b|
    ensures SameCore(a, b) || CoreBelow(a, b) || CoreBelow(b, a)
    decreases |a| + |b| - n
  {
    if n >= |a| && n >= |b| {
      assert forall k: nat :: k >= n ==> Component(a, k) == 0 == Component(b, k);
    } else if Component(a, n) < Component(b, n) {
      assert FirstBelow(a, b, n);
    } else if Component(b, n) < Component(a, n) {
      assert FirstBelow(b, a, n);
    } else {
      CoresAreOrdered(a, b, n + 1);
    }
  }

  lemma CoreTransitive(a: seq<nat>, b: seq<nat>, c: seq<nat>)
    requires CoreBelow(a, b) || SameCore(a, b)
    requires CoreBelow(b, c) || SameCore(b, c)
    ensures if SameCore(a, b) && SameCore(b, c) then SameCore(a, c) else CoreBelow(a, c)
  {
    if SameCore(a, b) && SameCore(b, c) {
    } else if SameCore(a, b) {
      var k: nat :| FirstBelow(b, c, k);
      assert FirstBelow(a, c, k);
    } else if SameCore(b, c) {
      var k: nat :| FirstBelow(a, b, k);
      assert FirstBelow(a, c, k);
    } else {
      var i: nat :| FirstBelow(a, b, i);
      var j: nat :| FirstBelow(b, c, j);
      assert FirstBelow(a, c, if i < j then i else j);
    }
  }

  lemma CoreExclusive(a: seq<nat>, b: seq<nat>)
    ensures !(CoreBelow(a, b) && CoreBelow(b, a)) && !(CoreBelow(a, b) && SameCore(a, b))
  {
    if CoreBelow(a, b) {
      var i: nat :| FirstBelow(a, b, i);
      forall j: nat
        ensures !FirstBelow(b, a, j)
      {
        if j < i {
          assert Component(a, j) == Component(b, j);
        }
      }
    }
  }

  lemma SameCoreSymmetric(a: seq<nat>, b: seq<nat>)
    ensures SameCore(a, b) <==> SameCore(b, a)
  {
    if SameCore(a, b) {
      assert forall k: nat :: Component(b, k) == Component(a, k);
    }
    if SameCore(b, a) {
      assert forall k: nat :: Component(a, k) == Component(b, k);
    }
  }

  /** The padded, branch-by-branch comparison decides the strict order, in both directions. */
  lemma CompareMeaning(a: Version, b: Version)
    ensures Compare(a, b) < 0 <==> Below(a, b)
    ensures Compare(a, b) > 0 <==> Below(b, a)
    ensures Compare(a, b) in {-1, 0, 1}
  {
    PaddedEqual(a, b);
    PaddedLess(a, b);
    CoresAreOrdered(a.core, b.core, 0);
    CoreExclusive(a.core, b.core);
    SameCoreSymmetric(a.core, b.core);
  }

  lemma CompareAntisymmetric(a: Version, b: Version)
    ensures Compare(a, b) == -Compare(b, a)
  {
    hide Compare, Below;
    CompareMeaning(a, b);
    CompareMeaning(b, a);
  }

  /** Strictly-below is transitive, whatever the lengths of the three cores. */
  lemma CompareTransitive(a: Version, b: Version, c: Version)
    requires Compare(a, b) < 0 && Compare(b, c) < 0
    ensures Compare(a, c) < 0
  {
    hide Compare;
    CompareMeaning(a, b);
    CompareMeaning(b, c);
    CompareMeaning(a, c);
    CoreTransitive(a.core, b.core, c.core);
  }

  /** Components that are zero and come last change nothing. */
  lemma TrailingZeros(a: Version, b: Version, n: nat)
    ensures var longer := a.(core := a.core + seq(n, _ => 0));
            Compare(longer, b) == Compare(a, b) && Compare(b, longer) == Compare(b, a)
  {
    var longer := a.(core := a.core + seq(n, _ => 0));
    assert SameCore(longer.core, a.core) by {
      assert forall k: nat :: Component(longer.core, k) == Component(a.core, k);
    }
    SameVersionCompares(longer, a, b);
    CompareAntisymmetric(longer, b);
    CompareAntisymmetric(a, b);
  }

  lemma SameVersionCompares(a: Version, a': Version, b: Version)
    requires SameCore(a.core, a'.core) && a.snapshot == a'.snapshot && a.build == a'.build
    ensures Compare(a, b) == Compare(a', b)
  {
    hide Compare;
    CompareMeaning(a, b);
    CompareMeaning(a', b);
    SameCoreSymmetric(a.core, a'.core);
    if CoreBelow(a.core, b.core) || SameCore(a.core, b.core) { CoreTransitive(a'.core, a.core, b.core); }
    if CoreBelow(a'.core, b.core) || SameCore(a'.core, b.core) { CoreTransitive(a.core, a'.core, b.core); }
    if CoreBelow(b.core, a.core) || SameCore(b.core, a.core) { CoreTransitive(b.core, a.core, a'.core); }
    if CoreBelow(b.core, a'.core) || SameCore(b.core, a'.core) { CoreTransitive(b.core, a'.core, a.core); }
  }

  /** "Equal" is not transitive: a bare version is equal to two builds of it that are not equal. */
  lemma EqualIsNotTransitive()
    ensures var bare := Version([1, 0, 0], false, None);
            var b1 := Version([1, 0, 0], false, Some(1)); var b2 := Version([1, 0, 0], false, Some(2));
            Compare(b1, bare) == 0 && Compare(bare, b2) == 0 && Compare(b1, b2) < 0
  {
  }

  // ---------------------------------------------------------------------
  // The lowest of several versions
  // ---------------------------------------------------------------------

  /** The scan: a later version replaces the winner only when it is strictly below it. */
  function LowestFrom(winner: Version, rest: seq<Version>): Version
    decreases |rest|
  {
    if rest == [] then winner
    else LowestFrom(if Compare(rest[0], winner) < 0 then rest[0] else winner, rest[1..])
  }

  predicate AllParsed(values: seq<Option<Version>>) { forall k | 0 <= k < |values| :: values[k].Some? }

  function Parsed(values: seq<Option<Version>>): seq<Version>
    requires AllParsed(values)
  {
    seq(|values|, k requires 0 <= k < |values| => values[k].value)
  }

  function Lowest(values: seq<Option<Version>>): Option<Version> {
    if values == [] || !AllParsed(values) then None
    else Some(LowestFrom(values[0].value, Parsed(values)[1..]))
  }

  method FindLowest(values: seq<Option<Version>>) returns (lowest: Option<Version>)
    ensures lowest == Lowest(values)
  {
    if values == [] {
      return None;
    }
    var parsed: seq<Version> := [];
    for k := 0 to |values|
      invariant AllParsed(values[..k]) && parsed == Parsed(values[..k])
    {
      if values[k].None? {
        return None;
      }
      parsed := parsed + [values[k].value];
    }
    assert values[..|values|] == values;
    var winner := parsed[0];
    for k := 1 to |parsed|
      invariant LowestFrom(values[0].value, parsed[1..]) == LowestFrom(winner, parsed[k..])
    {
      if Compare(parsed[k], winner) < 0 {
        winner := parsed[k];
      }
    }
    lowest := Some(winner);
  }

  /** The scan's result is the first winner or a later version, it is not above the first
      winner, and nothing scanned is strictly below it. */
  lemma {:induction false} LowestIsMinimal(winner: Version, rest: seq<Version>)
    ensures var low := LowestFrom(winner, rest);
      && (low == winner || low in rest)
      && (low == winner || Compare(low, winner) < 0)
      && (forall v | v == winner || v in rest :: Compare(v, low) >= 0)
    decreases |rest|
  {
    CompareAntisymmetric(winner, winner);
    if rest != [] {
      hide Compare;
      var next := if Compare(rest[0], winner) < 0 then rest[0] else winner;
      LowestIsMinimal(next, rest[1..]);
      var low := LowestFrom(winner, rest);
      if next == rest[0] && low != next && Compare(next, winner) < 0 {
        CompareTransitive(low, next, winner);
      }
      forall v | v == winner || v in rest
        ensures Compare(v, low) >= 0
      {
        CompareAntisymmetric(v, low);
        if Compare(v, low) < 0 && low != winner {
          if v == rest[0] && next == winner {
            CompareTransitive(v, low, winner);
          }
        }
      }
    }
  }

  /** `lowest` answers one of the versions, and none of them is strictly below it; it declines
      exactly when there is none or one of them did not parse. */
  lemma LowestMeaning(values: seq<Option<Version>>)
    ensures Lowest(values).None? <==> values == [] || None in values
    ensures Lowest(values).Some? ==> Lowest(values) in values
    ensures Lowest(values).Some? ==> forall v | v in values :: v.Some? && Compare(v.value, Lowest(values).value) >= 0
  {
    if values != [] && AllParsed(values) {
      var p := Parsed(values);
      LowestIsMinimal(p[0], p[1..]);
      assert p == [p[0]] + p[1..];
      forall v | v in values
        ensures v.Some? && Compare(v.value, Lowest(values).value) >= 0
      {
        var k :| 0 <= k < |values| && values[k] == v;
        assert p[k] == v.value && p[k] in p;
      }
      var low := Lowest(values).value;
      assert low in p;
      var k :| 0 <= k < |p| && p[k] == low;
      assert values[k] == Some(low);
    }
  }

  /** Two versions the comparison ties: one core, both snapshots or both not, and no two
      different counters. */
  lemma TiedVersions(a: Version, b: Version)
    requires Compare(a, b) == 0
    ensures SameCore(a.core, b.core) && a.snapshot == b.snapshot
    ensures a.build.Some? && b.build.Some? ==> a.build == b.build
  {
    CompareMeaning(a, b);
    CoresAreOrdered(a.core, b.core, 0);
  }

  /** A version below `r`, and one tied with it that carries its counter or needs none. */
  lemma TiedIsBelowToo(low: Version, m: Version, r: Version)
    requires Compare(m, low) == 0 && Compare(m, r) < 0
    requires low.build == m.build || low.build.Some? || r.build.None?
    ensures Compare(low, r) < 0
  {
    hide Compare;
    TiedVersions(m, low);
    CompareMeaning(m, r);
    CompareMeaning(low, r);
    SameCoreSymmetric(m.core, low.core);
    CoreTransitive(low.core, m.core, r.core);
  }

  /** If the lowest member is at least the required version, so is every member -- whenever the
      members are uniform in carrying a build counter or the required version has none. */
  lemma LowestIsFloor(values: seq<Option<Version>>, required: Version, m: Option<Version>)
    requires m in values && AtLeast(Lowest(values), Some(required)) == Some(true)
    requires required.build.None? || UniformBuilds(values)
    ensures AtLeast(m, Some(required)) == Some(true)
  {
    hide Compare;
    LowestMeaning(values);
    var low := Lowest(values).value;
    CompareAntisymmetric(m.value, low);
    if Compare(m.value, required) < 0 {
      if Compare(m.value, low) == 0 {
        TiedIsBelowToo(low, m.value, required);
      } else {
        CompareTransitive(low, m.value, required);
      }
    }
  }

  predicate UniformBuilds(values: seq<Option<Version>>) {
    forall a, b | a in values && b in values && a.Some? && b.Some? :: a.value.build.Some? == b.value.build.Some?
  }

  /** All of the versions carry a build counter, or none does. */
  lemma UniformExactly(values: seq<Option<Version>>)
    ensures UniformBuilds(values) <==>
      || (forall m | m in values && m.Some? :: m.value.build.Some?)
      || (forall m | m in values && m.Some? :: m.value.build.None?)
  {
  }

  /** A tie the floor cannot rely on: the lowest member is bare and a tied one is a numbered build. */
  predicate BareTie(values: seq<Option<Version>>) {
    && Lowest(values).Some? && Lowest(values).value.build.None?
    && exists m | m in values :: m.Some? && Compare(m.value, Lowest(values).value) == 0 && m.value.build.Some?
  }

  ghost predicate SafeFloor(values: seq<Option<Version>>)
    requires Lowest(values).Some?
  {
    forall required: Version, m: Option<Version> {:trigger Compare(m.value, required)} ::
      m in values && m.Some? && Compare(Lowest(values).value, required) >= 0 ==> Compare(m.value, required) >= 0
  }

  /** Exactly when "the lowest is at least it" says "every member is at least it", for every
      version one could require: when the lowest is not a bare version tied with a numbered build. */
  lemma FloorIsSafeExactly(values: seq<Option<Version>>)
    requires Lowest(values).Some?
    ensures SafeFloor(values) <==> !BareTie(values)
  {
    hide Compare;
    LowestMeaning(values);
    var low := Lowest(values).value;
    if BareTie(values) {
      var m :| m in values && m.Some? && Compare(m.value, low) == 0 && m.value.build.Some?;
      var required := m.value.(build := Some(m.value.build.value + 1));
      AheadByCounter(low, m.value, required);
      assert Compare(m.value, required) < 0;
    } else {
      forall required: Version, m: Option<Version> | m in values && m.Some? && Compare(low, required) >= 0
        ensures Compare(m.value, required) >= 0
      {
        CompareAntisymmetric(m.value, low);
        if Compare(m.value, required) < 0 {
          if Compare(m.value, low) == 0 {
            TiedIsBelowToo(low, m.value, required);
          } else {
            CompareTransitive(low, m.value, required);
          }
        }
      }
    }
  }

  lemma AheadByCounter(low: Version, m: Version, required: Version)
    requires Compare(m, low) == 0 && low.build.None? && m.build.Some?
    requires required == m.(build := Some(m.build.value + 1))
    ensures Compare(low, required) == 0 && Compare(m, required) < 0
  {
    TiedVersions(m, low);
    SameVersionCompares(low, m.(build := None), required);
  }
}
