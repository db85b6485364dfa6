/** The record of a fingerprint, composed from its stored parts (src/dlt/group_store.py), and the
    single-document record it replaced (src/dlt/groups.py). */
module GroupRecord {
  import opened Options

  type Histogram = map<string, nat>

  /** One stored occurrence or code check. An empty verdict or reference is an absent one. */
  datatype Record = Record(caseId: string, refId: string, verdict: string, at: real, tick: int)

  /** The frozen single-document record of a group that predates this layout. */
  datatype Legacy = Legacy(members: seq<string>, count: nat, verdicts: Histogram, checks: Histogram,
                           recommendation: Option<string>, codeCheck: Option<string>)

  /** Everything stored for one fingerprint. Occurrences and checks are objects named after the case. */
  datatype Folder = Folder(
    occurrences: map<string, Record>, checks: map<string, Record>,
    meta: Option<string>, recommendation: Option<string>, codeCheck: Option<string>, legacy: Option<Legacy>)

  const Empty: Folder := Folder(map[], map[], None, None, None, None)

  datatype Group = Group(count: nat, members: seq<string>, verdicts: Histogram, checks: Histogram,
                         meta: Option<string>, recommendation: Option<string>, codeCheck: Option<string>)

  /** The order in which a store lists names: any order, each name once. */
  type Listing = set<string> -> seq<string>

  ghost predicate Lists(order: Listing) {
    forall names: set<string> {:trigger order(names)} ::
      (forall n :: n in order(names) <==> n in names) && Distinct(order(names))
  }

  predicate Distinct(names: seq<string>) { forall i, j | 0 <= i < j < |names| :: names[i] != names[j] }

  // ---------------------------------------------------------------------
  // Composition
  // ---------------------------------------------------------------------

  function Fetched(objects: map<string, Record>, names: seq<string>): seq<Record> {
    if names == [] then []
    else (if names[0] in objects then [objects[names[0]]] else []) + Fetched(objects, names[1..])
  }

  /** Wall-clock time, then the tiebreaker. */
  predicate Earlier(a: Record, b: Record) { a.at < b.at || (a.at == b.at && a.tick < b.tick) }

  function Insert(r: Record, s: seq<Record>): seq<Record> {
    if s == [] || !Earlier(s[0], r) then [r] + s else [s[0]] + Insert(r, s[1..])
  }

  /** The stable sort by time. */
  function ByArrival(s: seq<Record>): seq<Record> {
    if s == [] then [] else Insert(s[0], ByArrival(s[1..]))
  }

  /** Not listed, by case or by reference, in the legacy record. */
  predicate IsFresh(r: Record, listed: set<string>) { r.caseId !in listed && r.refId !in listed }

  function Fresh(s: seq<Record>, listed: set<string>): seq<Record> {
    if s == [] then [] else (if IsFresh(s[0], listed) then [s[0]] else []) + Fresh(s[1..], listed)
  }

  function At(h: Histogram, verdict: string): nat { if verdict in h then h[verdict] else 0 }

  function Tally(h: Histogram, s: seq<Record>): Histogram
    decreases |s|
  {
    if s == [] then h
    else Tally(if s[0].verdict != "" then h[s[0].verdict := At(h, s[0].verdict) + 1] else h, s[1..])
  }

  function CaseIds(s: seq<Record>): seq<string> { seq(|s|, i requires 0 <= i < |s| => s[i].caseId) }

  function Newest(members: seq<string>, cap: nat): seq<string> {
    if |members| <= cap then members else members[|members| - cap..]
  }

  const NoLegacy: Legacy := Legacy([], 0, map[], map[], None, None)

  function LegacyOf(f: Folder): Legacy { if f.legacy.Some? then f.legacy.value else NoLegacy }

  /** The names the legacy record lists; blank ones are none. */
  function Listed(f: Folder): set<string> { set m | m in LegacyOf(f).members && m != "" }

  function LegacyMembers(members: seq<string>): seq<string> {
    if members == [] then [] else (if members[0] != "" then [members[0]] else []) + LegacyMembers(members[1..])
  }

  function Or(a: Option<string>, b: Option<string>): Option<string> { if a.Some? then a else b }

  /** The group as `load_group` composes it, or nothing when no part is stored. */
  function Compose(f: Folder, order: Listing, cap: nat): Option<Group> {
    ComposeFrom(f, Fetched(f.occurrences, order(f.occurrences.Keys)), Fetched(f.checks, order(f.checks.Keys)), cap)
  }

  function ComposeFrom(f: Folder, occurrences: seq<Record>, checks: seq<Record>, cap: nat): Option<Group> {
    if occurrences == [] && checks == [] && f.meta.None? && f.recommendation.None? && f.codeCheck.None? && f.legacy.None? then None
    else
      var legacy := LegacyOf(f);
      var unlisted := Fresh(ByArrival(occurrences), Listed(f));
      Some(Group(
        legacy.count + |unlisted|, Newest(LegacyMembers(legacy.members) + CaseIds(unlisted), cap),
        Tally(legacy.verdicts, unlisted), Tally(legacy.checks, checks),
        f.meta, Or(f.recommendation, legacy.recommendation), Or(f.codeCheck, legacy.codeCheck)))
  }

  // ---------------------------------------------------------------------
  // Writes
  // ---------------------------------------------------------------------

  /** Create-only: a second object of a name changes nothing. */
  function Created(objects: map<string, Record>, name: string, r: Record): map<string, Record> {
    if name in objects then objects else objects[name := r]
  }

  function Recorded(f: Folder, r: Record, meta: string): Folder {
    f.(occurrences := Created(f.occurrences, r.caseId, r), meta := Some(meta))
  }

  function RecordedAll(f: Folder, rs: seq<Record>, meta: string): Folder
    decreases |rs|
  {
    if rs == [] then f else RecordedAll(Recorded(f, rs[0], meta), rs[1..], meta)
  }

  function Cases(rs: seq<Record>): set<string> { set r | r in rs :: r.caseId }

  /** The first recording of a case. */
  function FirstOf(rs: seq<Record>, c: string): Record
    requires c in Cases(rs)
  {
    if rs[0].caseId == c then rs[0] else FirstOf(rs[1..], c)
  }

  lemma CasesOfRest(rs: seq<Record>)
    requires rs != []
    ensures Cases(rs) == {rs[0].caseId} + Cases(rs[1..])
  {
    assert rs == [rs[0]] + rs[1..];
  }

  /** After any recordings, each case has one object: its first recording. */
  lemma {:induction false} RecordsFirst(f: Folder, rs: seq<Record>, meta: string)
    ensures RecordedAll(f, rs, meta).occurrences.Keys == f.occurrences.Keys + Cases(rs)
    ensures forall c | c in f.occurrences :: RecordedAll(f, rs, meta).occurrences[c] == f.occurrences[c]
    ensures forall c | c in Cases(rs) && c !in f.occurrences :: RecordedAll(f, rs, meta).occurrences[c] == FirstOf(rs, c)
    ensures RecordedAll(f, rs, meta).legacy == f.legacy && RecordedAll(f, rs, meta).checks == f.checks
    ensures rs != [] ==> RecordedAll(f, rs, meta).meta.Some?
    ensures rs == [] ==> RecordedAll(f, rs, meta) == f
    decreases |rs|
  {
    if rs != [] {
      CasesOfRest(rs);
      RecordsFirst(Recorded(f, rs[0], meta), rs[1..], meta);
    }
  }

  // ---------------------------------------------------------------------
  // Counting
  // ---------------------------------------------------------------------

  /** Fresh, and of the verdict asked for, if any. */
  predicate Counts(r: Record, listed: set<string>, verdict: Option<string>) {
    IsFresh(r, listed) && (verdict.Some? ==> r.verdict == verdict.value)
  }

  function Number(s: seq<Record>, listed: set<string>, verdict: Option<string>): nat {
    if s == [] then 0 else (if Counts(s[0], listed, verdict) then 1 else 0) + Number(s[1..], listed, verdict)
  }

  lemma {:induction false} NumberInsert(r: Record, s: seq<Record>, listed: set<string>, verdict: Option<string>)
    ensures Number(Insert(r, s), listed, verdict) == Number([r] + s, listed, verdict)
  {
    assert ([r] + s)[1..] == s;
    if s != [] && Earlier(s[0], r) {
      NumberInsert(r, s[1..], listed, verdict);
      assert ([s[0]] + Insert(r, s[1..]))[1..] == Insert(r, s[1..]);
      assert ([r] + s[1..])[1..] == s[1..];
    }
  }

  /** Sorting changes no count. */
  lemma {:induction false} NumberSorted(s: seq<Record>, listed: set<string>, verdict: Option<string>)
    ensures Number(ByArrival(s), listed, verdict) == Number(s, listed, verdict)
  {
    if s != [] {
      NumberSorted(s[1..], listed, verdict);
      NumberInsert(s[0], ByArrival(s[1..]), listed, verdict);
      assert ([s[0]] + ByArrival(s[1..]))[1..] == ByArrival(s[1..]);
    }
  }

  lemma {:induction false} FreshNumber(s: seq<Record>, listed: set<string>, v: string)
    ensures |Fresh(s, listed)| == Number(s, listed, None)
    ensures forall h: Histogram :: v != "" ==> At(Tally(h, Fresh(s, listed)), v) == At(h, v) + Number(s, listed, Some(v))
  {
    if s != [] {
      FreshNumber(s[1..], listed, v);
      if IsFresh(s[0], listed) {
        assert Fresh(s, listed)[1..] == Fresh(s[1..], listed);
      } else {
        assert Fresh(s, listed) == Fresh(s[1..], listed);
      }
    }
  }

  /** The cases whose object counts. */
  function CountedCases(objects: map<string, Record>, listed: set<string>, verdict: Option<string>): set<string> {
    set c | c in objects && Counts(objects[c], listed, verdict)
  }

  function CountedAmong(objects: map<string, Record>, names: seq<string>, listed: set<string>, verdict: Option<string>): set<string> {
    set c | c in objects && c in names && Counts(objects[c], listed, verdict)
  }

  lemma CountedFirst(objects: map<string, Record>, n: string, rest: seq<string>, listed: set<string>, verdict: Option<string>)
    requires n !in rest
    ensures |CountedAmong(objects, [n] + rest, listed, verdict)| == |CountedAmong(objects, rest, listed, verdict)|
         + (if n in objects && Counts(objects[n], listed, verdict) then 1 else 0)
  {
    hide Counts;
    var others := CountedAmong(objects, rest, listed, verdict);
    if n in objects && Counts(objects[n], listed, verdict) {
      assert CountedAmong(objects, [n] + rest, listed, verdict) == others + {n};
    } else {
      assert CountedAmong(objects, [n] + rest, listed, verdict) == others;
    }
  }

  lemma DistinctRest(names: seq<string>)
    requires Distinct(names) && names != []
    ensures Distinct(names[1..]) && names[0] !in names[1..] && names == [names[0]] + names[1..]
  {
  }

  lemma {:induction false} NumberOfObjects(objects: map<string, Record>, names: seq<string>, listed: set<string>, verdict: Option<string>)
    requires Distinct(names)
    ensures Number(Fetched(objects, names), listed, verdict) == |CountedAmong(objects, names, listed, verdict)|
  {
    if names != [] {
      hide Counts;
      var n, rest := names[0], names[1..];
      DistinctRest(names);
      hide Distinct, CountedAmong;
      CountedFirst(objects, n, rest, listed, verdict);
      NumberOfObjects(objects, rest, listed, verdict);
      if n in objects {
        assert Fetched(objects, names)[1..] == Fetched(objects, rest);
      } else {
        assert Fetched(objects, names) == Fetched(objects, rest);
      }
    }
  }

  lemma NumberListed(objects: map<string, Record>, order: Listing, listed: set<string>, verdict: Option<string>)
    requires Lists(order)
    ensures Number(Fetched(objects, order(objects.Keys)), listed, verdict) == |CountedCases(objects, listed, verdict)|
  {
    NumberOfObjects(objects, order(objects.Keys), listed, verdict);
    assert CountedCases(objects, listed, verdict) == CountedAmong(objects, order(objects.Keys), listed, verdict);
  }

  /** A fingerprint is novel exactly when nothing at all is stored for it. */
  lemma NovelExactly(f: Folder, order: Listing, cap: nat)
    requires Lists(order)
    ensures Compose(f, order, cap).None? <==> f == Empty
  {
    FetchesSomething(f.occurrences, order);
    FetchesSomething(f.checks, order);
  }

  lemma {:induction false} FetchesNothing(names: seq<string>)
    ensures Fetched(map[], names) == []
  {
    if names != [] {
      FetchesNothing(names[1..]);
    }
  }

  lemma FetchesSomething(objects: map<string, Record>, order: Listing)
    requires Lists(order)
    ensures Fetched(objects, order(objects.Keys)) == [] <==> objects == map[]
  {
    var names := order(objects.Keys);
    if objects == map[] {
      FetchesNothing(names);
    } else {
      var c :| c in objects;
      assert c in names;
    }
  }

  lemma {:induction false} TallyNumber(h: Histogram, s: seq<Record>, v: string)
    requires v != ""
    ensures At(Tally(h, s), v) == At(h, v) + Number(s, {}, Some(v))
    decreases |s|
  {
    if s != [] {
      TallyNumber(if s[0].verdict != "" then h[s[0].verdict := At(h, s[0].verdict) + 1] else h, s[1..], v);
    }
  }

  /** Each check object counts its verdict once, on top of the legacy histogram. */
  lemma ComposeCountsChecks(f: Folder, order: Listing, cap: nat, v: string)
    requires Lists(order) && v != "" && Compose(f, order, cap).Some?
    ensures At(Compose(f, order, cap).value.checks, v)
         == (if f.legacy.Some? then At(f.legacy.value.checks, v) else 0) + |set c | c in f.checks && f.checks[c].verdict == v|
  {
    var s := Fetched(f.checks, order(f.checks.Keys));
    TallyNumber(LegacyOf(f).checks, s, v);
    NumberListed(f.checks, order, {}, Some(v));
    CheckedCases(f.checks, v);
    hide Tally, Number, CountedCases, Fresh, ByArrival, Fetched;
  }

  lemma CheckedCases(checks: map<string, Record>, v: string)
    ensures CountedCases(checks, {}, Some(v)) == set c | c in checks && checks[c].verdict == v
  {
  }

  /** Named in the legacy record. A blank name is none. */
  predicate InLegacy(f: Folder, name: string) { f.legacy.Some? && name != "" && name in f.legacy.value.members }

  /** The cases, of a verdict if one is given, that the legacy record does not name by case or by reference. */
  function Unlisted(f: Folder, verdict: Option<string>): set<string> {
    set c | c in f.occurrences && !InLegacy(f, f.occurrences[c].caseId) && !InLegacy(f, f.occurrences[c].refId)
            && (verdict.None? || f.occurrences[c].verdict == verdict.value)
  }

  lemma CountedIsUnlisted(f: Folder, verdict: Option<string>)
    ensures CountedCases(f.occurrences, Listed(f), verdict) == Unlisted(f, verdict)
  {
  }

  /** A composed group counts the objects that the legacy record does not list, on top of that record. */
  lemma ComposeCounts(f: Folder, order: Listing, cap: nat, v: string)
    requires Lists(order) && v != ""
    requires Compose(f, order, cap).Some?
    ensures var g := Compose(f, order, cap).value;
      && g.count == (if f.legacy.Some? then f.legacy.value.count else 0) + |Unlisted(f, None)|
      && At(g.verdicts, v) == (if f.legacy.Some? then At(f.legacy.value.verdicts, v) else 0) + |Unlisted(f, Some(v))|
  {
    var s := Fetched(f.occurrences, order(f.occurrences.Keys));
    FreshNumber(ByArrival(s), Listed(f), v);
    NumberSorted(s, Listed(f), None);
    NumberSorted(s, Listed(f), Some(v));
    NumberListed(f.occurrences, order, Listed(f), None);
    NumberListed(f.occurrences, order, Listed(f), Some(v));
    CountedIsUnlisted(f, None);
    CountedIsUnlisted(f, Some(v));
    hide CountedCases, Unlisted, Number, Listed;
  }

  /** The parts that are not counted: what is stored, and what the legacy record holds where nothing is. */
  lemma ComposesParts(f: Folder, order: Listing, cap: nat)
    requires Compose(f, order, cap).Some?
    ensures var g := Compose(f, order, cap).value;
      && g.meta == f.meta
      && (f.recommendation.Some? ==> g.recommendation == f.recommendation)
      && (f.codeCheck.Some? ==> g.codeCheck == f.codeCheck)
      && (f.recommendation.None? ==> g.recommendation == if f.legacy.Some? then f.legacy.value.recommendation else None)
      && (f.codeCheck.None? ==> g.codeCheck == if f.legacy.Some? then f.legacy.value.codeCheck else None)
  {
  }

  /** The recorded cases that count: by the first recording of each, whatever came later. */
  function FirstUnlisted(f: Folder, rs: seq<Record>, verdict: Option<string>): set<string> {
    set c | c in Cases(rs) && !InLegacy(f, FirstOf(rs, c).caseId) && !InLegacy(f, FirstOf(rs, c).refId)
            && (verdict.None? || FirstOf(rs, c).verdict == verdict.value)
  }

  /** After any recordings with any repetition, the count is the legacy count plus the distinct cases
      the legacy record does not list, and each of those adds its first verdict once. */
  lemma CountsDistinctCases(f: Folder, rs: seq<Record>, meta: string, order: Listing, cap: nat, v: string)
    requires Lists(order) && f.occurrences == map[] && rs != [] && v != ""
    ensures Compose(RecordedAll(f, rs, meta), order, cap).Some?
    ensures var g := Compose(RecordedAll(f, rs, meta), order, cap).value;
      && g.count == (if f.legacy.Some? then f.legacy.value.count else 0) + |FirstUnlisted(f, rs, None)|
      && At(g.verdicts, v) == (if f.legacy.Some? then At(f.legacy.value.verdicts, v) else 0) + |FirstUnlisted(f, rs, Some(v))|
  {
    RecordsFirst(f, rs, meta);
    var f' := RecordedAll(f, rs, meta);
    ComposeCounts(f', order, cap, v);
    assert forall name :: InLegacy(f', name) <==> InLegacy(f, name);
    assert Unlisted(f', None) == FirstUnlisted(f, rs, None);
    assert Unlisted(f', Some(v)) == FirstUnlisted(f, rs, Some(v));
  }

  // ---------------------------------------------------------------------
  // The single-document record
  // ---------------------------------------------------------------------

  datatype Document = Document(count: nat, members: seq<string>, verdicts: Histogram)

  const Blank: Document := Document(0, [], map[])

  function Mutated(d: Document, r: Record, cap: nat): Document {
    if r.caseId in d.members then d
    else Document(d.count + 1, Newest(d.members + [r.caseId], cap),
                  if r.verdict != "" then d.verdicts[r.verdict := At(d.verdicts, r.verdict) + 1] else d.verdicts)
  }

  function MutatedAll(d: Document, rs: seq<Record>, cap: nat): Document
    decreases |rs|
  {
    if rs == [] then d else MutatedAll(Mutated(d, rs[0], cap), rs[1..], cap)
  }

  /** Recordings of a case that was recorded before and has since dropped out of the capped list. */
  function Readmissions(d: Document, seen: set<string>, rs: seq<Record>, cap: nat): nat
    decreases |rs|
  {
    if rs == [] then 0
    else (if rs[0].caseId in seen && rs[0].caseId !in d.members then 1 else 0)
         + Readmissions(Mutated(d, rs[0], cap), seen + {rs[0].caseId}, rs[1..], cap)
  }

  lemma NewCases(rs: seq<Record>, seen: set<string>)
    requires rs != []
    ensures |Cases(rs) - seen| == |Cases(rs[1..]) - (seen + {rs[0].caseId})| + (if rs[0].caseId in seen then 0 else 1)
  {
    CasesOfRest(rs);
    var c := rs[0].caseId;
    var later := Cases(rs[1..]) - (seen + {c});
    if c in seen {
      assert Cases(rs) - seen == later;
    } else {
      assert Cases(rs) - seen == later + {c};
    }
  }

  lemma {:induction false} DocumentCounts(d: Document, seen: set<string>, rs: seq<Record>, cap: nat)
    requires forall m | m in d.members :: m in seen
    ensures MutatedAll(d, rs, cap).count == d.count + |Cases(rs) - seen| + Readmissions(d, seen, rs, cap)
    decreases |rs|
  {
    if rs == [] {
      assert Cases(rs) - seen == {};
    } else {
      NewCases(rs, seen);
      hide Cases;
      DocumentCounts(Mutated(d, rs[0], cap), seen + {rs[0].caseId}, rs[1..], cap);
    }
  }

  /** The old record over-counts by exactly its readmissions: the two counts agree if and only if no
      case comes back after it has dropped out of the capped list. */
  lemma CountsAgreeExactly(rs: seq<Record>, meta: string, order: Listing, cap: nat)
    requires Lists(order) && rs != []
    ensures Compose(RecordedAll(Empty, rs, meta), order, cap).Some?
    ensures MutatedAll(Blank, rs, cap).count
         == Compose(RecordedAll(Empty, rs, meta), order, cap).value.count + Readmissions(Blank, {}, rs, cap)
  {
    CountsDistinctCases(Empty, rs, meta, order, cap, "v");
    DocumentCounts(Blank, {}, rs, cap);
    assert FirstUnlisted(Empty, rs, None) == Cases(rs) - {};
  }

  // ---------------------------------------------------------------------
  // Within the cap the two records are one
  // ---------------------------------------------------------------------

  /** First recordings, in order, of cases not in `seen`. */
  function Arrivals(rs: seq<Record>, seen: set<string>): seq<Record> {
    if rs == [] then []
    else if rs[0].caseId in seen then Arrivals(rs[1..], seen)
    else [rs[0]] + Arrivals(rs[1..], seen + {rs[0].caseId})
  }

  lemma {:induction false} ArrivalsMeaning(rs: seq<Record>, seen: set<string>)
    ensures |Arrivals(rs, seen)| == |Cases(rs) - seen|
    ensures forall r :: r in Arrivals(rs, seen) <==> r in rs && r.caseId !in seen && r == FirstOf(rs, r.caseId)
    decreases |rs|
  {
    if rs == [] {
      assert Cases(rs) - seen == {};
    } else {
      var c, rest := rs[0].caseId, rs[1..];
      assert rs == [rs[0]] + rest;
      CasesOfRest(rs);
      if c in seen {
        ArrivalsMeaning(rest, seen);
        assert Cases(rs) - seen == Cases(rest) - seen;
      } else {
        ArrivalsMeaning(rest, seen + {c});
        assert Cases(rs) - seen == {c} + (Cases(rest) - (seen + {c}));
      }
    }
  }

  lemma {:induction false} DocumentListsArrivals(d: Document, rs: seq<Record>, seen: set<string>, cap: nat)
    requires forall m :: m in d.members <==> m in seen
    requires |d.members| + |Cases(rs) - seen| <= cap
    ensures var d' := MutatedAll(d, rs, cap); var arrived := Arrivals(rs, seen);
      d' == Document(d.count + |arrived|, d.members + CaseIds(arrived), Tally(d.verdicts, arrived))
    decreases |rs|
  {
    if rs == [] {
      assert d.members + CaseIds([]) == d.members;
    } else {
      var r, rest := rs[0], rs[1..];
      NewCases(rs, seen);
      if r.caseId in seen {
        assert seen + {r.caseId} == seen;
        DocumentListsArrivals(d, rest, seen, cap);
      } else {
        MutatedLists(d, r, seen, cap);
        hide Cases, Mutated;
        DocumentListsArrivals(Mutated(d, r, cap), rest, seen + {r.caseId}, cap);
        ArrivalFirst(d.members, d.verdicts, r, Arrivals(rest, seen + {r.caseId}));
      }
    }
  }

  lemma MutatedLists(d: Document, r: Record, seen: set<string>, cap: nat)
    requires forall m :: m in d.members <==> m in seen
    requires r.caseId !in seen && |d.members| < cap
    ensures var d' := Mutated(d, r, cap);
      && d'.count == d.count + 1 && d'.members == d.members + [r.caseId]
      && (forall a :: Tally(d.verdicts, [r] + a) == Tally(d'.verdicts, a))
      && forall m :: m in d'.members <==> m in seen + {r.caseId}
  {
    assert forall a :: ([r] + a)[1..] == a;
  }

  lemma ArrivalFirst(members: seq<string>, h: Histogram, r: Record, later: seq<Record>)
    ensures members + [r.caseId] + CaseIds(later) == members + CaseIds([r] + later)
  {
    assert CaseIds([r] + later) == [r.caseId] + CaseIds(later);
  }

  predicate Ascending(s: seq<Record>) { forall i, j | 0 <= i < j < |s| :: Earlier(s[i], s[j]) }

  /** In order, ties allowed. */
  predicate InOrder(s: seq<Record>) { forall i, j | 0 <= i < j < |s| :: !Earlier(s[j], s[i]) }

  lemma {:induction false} InsertAdds(r: Record, s: seq<Record>)
    ensures multiset(Insert(r, s)) == multiset(s) + multiset{r}
  {
    if s == [] || !Earlier(s[0], r) {
      assert multiset([r] + s) == multiset{r} + multiset(s);
    } else {
      InsertAdds(r, s[1..]);
      assert s == [s[0]] + s[1..];
    }
  }

  /** What is not later than every element of an ordered sequence may go in front of it. */
  lemma InOrderCons(x: Record, t: seq<Record>)
    requires InOrder(t) && forall y | y in t :: !Earlier(y, x)
    ensures InOrder([x] + t)
  {
  }

  lemma FirstIsFirst(s: seq<Record>, r: Record)
    requires InOrder(s) && s != []
    ensures InOrder(s[1..]) && forall y | y in s :: !Earlier(y, s[0])
    ensures !Earlier(s[0], r) ==> forall y | y in s :: !Earlier(y, r)
  {
    forall y | y in s
      ensures !Earlier(y, s[0])
    {
      var k :| 0 <= k < |s| && s[k] == y;
    }
  }

  lemma {:induction false} InsertKeepsOrder(r: Record, s: seq<Record>)
    requires InOrder(s)
    ensures InOrder(Insert(r, s)) && multiset(Insert(r, s)) == multiset(s) + multiset{r}
  {
    InsertAdds(r, s);
    if s == [] {
    } else if !Earlier(s[0], r) {
      FirstIsFirst(s, r);
      InOrderCons(r, s);
    } else {
      var t := Insert(r, s[1..]);
      FirstIsFirst(s, r);
      InsertKeepsOrder(r, s[1..]);
      hide InOrder;
      forall y | y in t
        ensures !Earlier(y, s[0])
      {
        assert y in multiset(t);
        assert y == r || y in s[1..];
      }
      InOrderCons(s[0], t);
    }
  }

  lemma {:induction false} SortedInOrder(s: seq<Record>)
    ensures InOrder(ByArrival(s)) && multiset(ByArrival(s)) == multiset(s)
  {
    if s != [] {
      SortedInOrder(s[1..]);
      InsertKeepsOrder(s[0], ByArrival(s[1..]));
      assert s == [s[0]] + s[1..];
    }
  }

  lemma SameLeast(a: seq<Record>, b: seq<Record>)
    requires Ascending(a) && InOrder(b) && multiset(a) == multiset(b) && a != [] && b != []
    ensures a[0] == b[0]
  {
    assert a[0] in multiset(b) && b[0] in multiset(a);
    var i :| 0 <= i < |a| && a[i] == b[0];
    var j :| 0 <= j < |b| && b[j] == a[0];
    assert i > 0 ==> Earlier(a[0], a[i]);
  }

  lemma RestOrdered(a: seq<Record>, b: seq<Record>)
    requires Ascending(a) && InOrder(b) && a != [] && b != []
    ensures Ascending(a[1..]) && InOrder(b[1..])
  {
  }

  lemma RestMultiset(s: seq<Record>)
    requires s != []
    ensures multiset(s[1..]) == multiset(s) - multiset{s[0]}
  {
    assert s == [s[0]] + s[1..];
  }

  /** One multiset has one ascending order. */
  lemma {:induction false} OneOrder(a: seq<Record>, b: seq<Record>)
    requires Ascending(a) && InOrder(b) && multiset(a) == multiset(b)
    ensures a == b
  {
    assert |a| == |multiset(a)| == |multiset(b)| == |b|;
    if a != [] {
      SameLeast(a, b);
      RestOrdered(a, b);
      hide Ascending, InOrder;
      RestMultiset(a);
      RestMultiset(b);
      OneOrder(a[1..], b[1..]);
      assert a == [a[0]] + a[1..] && b == [b[0]] + b[1..];
    }
  }

  lemma {:induction false} ArrivalsAscend(rs: seq<Record>, seen: set<string>)
    requires Ascending(rs)
    ensures Ascending(Arrivals(rs, seen)) && forall r | r in Arrivals(rs, seen) :: r in rs
    decreases |rs|
  {
    if rs != [] {
      var rest := rs[1..];
      assert rs == [rs[0]] + rest;
      assert forall r | r in rest :: Earlier(rs[0], r);
      ArrivalsAscend(rest, if rs[0].caseId in seen then seen else seen + {rs[0].caseId});
    }
  }

  predicate NoRepeats(s: seq<Record>) { forall i, j | 0 <= i < j < |s| :: s[i] != s[j] }

  lemma {:induction false} Multiplicity(s: seq<Record>, r: Record)
    requires NoRepeats(s)
    ensures multiset(s)[r] == if r in s then 1 else 0
  {
    if s != [] {
      assert s == [s[0]] + s[1..];
      assert s[0] !in s[1..];
      Multiplicity(s[1..], r);
    }
  }

  lemma SameMultiset(a: seq<Record>, b: seq<Record>)
    requires NoRepeats(a) && NoRepeats(b) && forall r :: r in a <==> r in b
    ensures multiset(a) == multiset(b)
  {
    forall r
      ensures multiset(a)[r] == multiset(b)[r]
    {
      Multiplicity(a, r);
      Multiplicity(b, r);
    }
  }

  /** Each object is named after its case. */
  predicate NamedAfterCases(objects: map<string, Record>) { forall n | n in objects :: objects[n].caseId == n }

  lemma {:induction false} FetchedAreObjects(objects: map<string, Record>, names: seq<string>)
    requires Distinct(names) && NamedAfterCases(objects)
    ensures NoRepeats(Fetched(objects, names))
    ensures forall r :: r in Fetched(objects, names) <==> r.caseId in names && r.caseId in objects && r == objects[r.caseId]
  {
    if names != [] {
      DistinctRest(names);
      FetchedAreObjects(objects, names[1..]);
    }
  }

  lemma {:induction false} NothingListed(s: seq<Record>)
    ensures Fresh(s, {}) == s
  {
    if s != [] {
      NothingListed(s[1..]);
    }
  }

  /** Recorded in ascending order, the objects sort into the order of arrival. */
  lemma SortsIntoArrivals(rs: seq<Record>, meta: string, order: Listing)
    requires Lists(order) && Ascending(rs)
    ensures var objects := RecordedAll(Empty, rs, meta).occurrences;
      ByArrival(Fetched(objects, order(objects.Keys))) == Arrivals(rs, {})
  {
    var objects := RecordedAll(Empty, rs, meta).occurrences;
    RecordsFirst(Empty, rs, meta);
    FirstsAreNamed(rs, objects);
    var s := Fetched(objects, order(objects.Keys));
    FetchedAreObjects(objects, order(objects.Keys));
    ArrivalsMeaning(rs, {});
    ArrivalsAscend(rs, {});
    var a := Arrivals(rs, {});
    forall r
      ensures r in a <==> r in s
    {
      FirstIsRecorded(rs, r.caseId);
    }
    assert forall i, j | 0 <= i < j < |a| :: Earlier(a[i], a[j]);
    SameMultiset(a, s);
    SortedInOrder(s);
    OneOrder(a, ByArrival(s));
  }

  lemma {:induction false} FirstIsRecorded(rs: seq<Record>, c: string)
    ensures c in Cases(rs) ==> FirstOf(rs, c) in rs && FirstOf(rs, c).caseId == c
  {
    if rs != [] && rs[0].caseId != c {
      CasesOfRest(rs);
      FirstIsRecorded(rs[1..], c);
    }
  }

  lemma FirstsAreNamed(rs: seq<Record>, objects: map<string, Record>)
    requires objects.Keys == Cases(rs) && forall c | c in objects :: objects[c] == FirstOf(rs, c)
    ensures NamedAfterCases(objects)
  {
    forall n | n in objects
      ensures objects[n].caseId == n
    {
      FirstIsRecorded(rs, n);
    }
  }

  /** Recorded in ascending order: the distinct cases are counted, the newest of them are the members,
      in order of arrival, and the histogram is that of their first verdicts. */
  lemma ComposesArrivals(rs: seq<Record>, meta: string, order: Listing, cap: nat)
    requires Lists(order) && rs != [] && Ascending(rs)
    ensures Compose(RecordedAll(Empty, rs, meta), order, cap).Some?
    ensures var g, a := Compose(RecordedAll(Empty, rs, meta), order, cap).value, Arrivals(rs, {});
      g.count == |a| && g.members == Newest(CaseIds(a), cap) && g.verdicts == Tally(map[], a)
  {
    var f := RecordedAll(Empty, rs, meta);
    var a := Arrivals(rs, {});
    RecordsFirst(Empty, rs, meta);
    SortsIntoArrivals(rs, meta, order);
    NothingListed(a);
    assert Listed(f) == {};
    assert [] + CaseIds(a) == CaseIds(a);
    hide RecordedAll, Arrivals, ByArrival, Tally;
  }

  /** With at most as many distinct cases as the cap and ascending stamps, the composed group and the
      single document agree on count, members and histogram, however often cases repeat. */
  lemma RecordsAgree(rs: seq<Record>, meta: string, order: Listing, cap: nat)
    requires Lists(order) && rs != [] && Ascending(rs) && |Cases(rs)| <= cap
    ensures Compose(RecordedAll(Empty, rs, meta), order, cap).Some?
    ensures var g, d := Compose(RecordedAll(Empty, rs, meta), order, cap).value, MutatedAll(Blank, rs, cap);
      g.count == d.count && g.members == d.members && g.verdicts == d.verdicts
  {
    var a := Arrivals(rs, {});
    ComposesArrivals(rs, meta, order, cap);
    assert Cases(rs) - {} == Cases(rs);
    DocumentListsArrivals(Blank, rs, {}, cap);
    ArrivalsMeaning(rs, {});
    assert [] + CaseIds(a) == CaseIds(a);
    hide RecordedAll, MutatedAll, Arrivals, Cases, Compose;
  }

  /** Past the cap they need not: with room for one member, a case that comes back is counted twice. */
  lemma ReturningCaseCountsTwice(order: Listing, meta: string)
    requires Lists(order)
    ensures var a, b, c := Record("a", "", "", 1.0, 0), Record("b", "", "", 2.0, 0), Record("a", "", "", 3.0, 0);
      && Ascending([a, b, c]) && MutatedAll(Blank, [a, b, c], 1).count == 3
      && Compose(RecordedAll(Empty, [a, b, c], meta), order, 1).Some?
      && Compose(RecordedAll(Empty, [a, b, c], meta), order, 1).value.count == 2
  {
    var a, b, c := Record("a", "", "", 1.0, 0), Record("b", "", "", 2.0, 0), Record("a", "", "", 3.0, 0);
    var rs := [a, b, c];
    assert rs[1..] == [b, c] && [b, c][1..] == [c] && [c][1..] == [];
    var d1 := Mutated(Blank, a, 1);
    assert d1 == Document(1, ["a"], map[]);
    var d2 := Mutated(d1, b, 1);
    assert (["a"] + ["b"])[1..] == ["b"];
    assert d2 == Document(2, ["b"], map[]);
    var d3 := Mutated(d2, c, 1);
    assert MutatedAll(d2, [c], 1) == MutatedAll(d3, [], 1) == d3;
    assert MutatedAll(d1, [b, c], 1) == d3;
    assert MutatedAll(Blank, rs, 1) == d3;
    CountsAgreeExactly(rs, meta, order, 1);
    assert Readmissions(d2, {"a", "b"}, [c], 1) == 1 + Readmissions(d3, {"a", "b"} + {"a"}, [], 1);
    assert {} + {"a"} + {"b"} == {"a", "b"};
    assert Readmissions(Blank, {}, rs, 1) == Readmissions(d1, {} + {"a"}, [b, c], 1)
        == Readmissions(d2, {} + {"a"} + {"b"}, [c], 1);
  }

  // ---------------------------------------------------------------------
  // The members of a group, over any folder
  // ---------------------------------------------------------------------

  lemma {:induction false} FreshMeaning(s: seq<Record>, listed: set<string>)
    ensures forall r :: r in Fresh(s, listed) <==> r in s && r.caseId !in listed && r.refId !in listed
    ensures NoRepeats(s) ==> NoRepeats(Fresh(s, listed))
    ensures InOrder(s) ==> InOrder(Fresh(s, listed))
  {
    if s != [] {
      FreshMeaning(s[1..], listed);
      FreshCons(s, listed);
    }
  }

  lemma FreshCons(s: seq<Record>, listed: set<string>)
    requires s != [] && forall r :: r in Fresh(s[1..], listed) <==> r in s[1..] && r.caseId !in listed && r.refId !in listed
    requires NoRepeats(s[1..]) ==> NoRepeats(Fresh(s[1..], listed))
    requires InOrder(s[1..]) ==> InOrder(Fresh(s[1..], listed))
    ensures forall r :: r in Fresh(s, listed) <==> r in s && r.caseId !in listed && r.refId !in listed
    ensures NoRepeats(s) ==> NoRepeats(Fresh(s, listed))
    ensures InOrder(s) ==> InOrder(Fresh(s, listed))
  {
    var rest := Fresh(s[1..], listed);
    assert s == [s[0]] + s[1..];
    if NoRepeats(s) {
      RepeatsCons(s[0], s[1..]);
      if s[0] !in rest {
        ConsRepeats(s[0], rest);
      }
    }
    if InOrder(s) {
      FirstIsFirst(s, s[0]);
      InOrderCons(s[0], rest);
    }
  }

  lemma RepeatsCons(x: Record, t: seq<Record>)
    requires NoRepeats([x] + t)
    ensures NoRepeats(t) && x !in t
  {
    var s := [x] + t;
    forall i | 0 <= i < |t|
      ensures t[i] == s[i + 1] && t[i] != x
    {
      assert s[0] != s[i + 1];
    }
  }

  lemma ConsRepeats(x: Record, t: seq<Record>)
    requires NoRepeats(t) && x !in t
    ensures NoRepeats([x] + t)
  {
  }

  lemma {:induction false} InsertNoRepeats(r: Record, s: seq<Record>)
    requires NoRepeats(s) && r !in s
    ensures NoRepeats(Insert(r, s)) && forall x :: x in Insert(r, s) <==> x == r || x in s
  {
    if s == [] || !Earlier(s[0], r) {
      ConsRepeats(r, s);
    } else {
      assert s == [s[0]] + s[1..];
      RepeatsCons(s[0], s[1..]);
      InsertNoRepeats(r, s[1..]);
      ConsRepeats(s[0], Insert(r, s[1..]));
    }
  }

  lemma {:induction false} SortedNoRepeats(s: seq<Record>)
    requires NoRepeats(s)
    ensures NoRepeats(ByArrival(s)) && forall x :: x in ByArrival(s) <==> x in s
  {
    if s != [] {
      assert s == [s[0]] + s[1..];
      RepeatsCons(s[0], s[1..]);
      SortedNoRepeats(s[1..]);
      InsertNoRepeats(s[0], ByArrival(s[1..]));
    }
  }

  /** Blank names are dropped, and the others kept as they stand. */
  lemma {:induction false} NonBlankKept(a: seq<string>, b: seq<string>, name: string)
    ensures LegacyMembers(a + b) == LegacyMembers(a) + LegacyMembers(b)
    ensures LegacyMembers([name]) == if name == "" then [] else [name]
  {
    if a == [] {
      assert a + b == b;
    } else {
      assert (a + b)[1..] == a[1..] + b;
      NonBlankKept(a[1..], b, name);
    }
  }

  /** The members: the last of the non-blank legacy members followed by the unlisted cases, each once, by time
      and tiebreaker -- whatever the listing order. */
  lemma MembersExactly(f: Folder, order: Listing, cap: nat) returns (unlisted: seq<Record>)
    requires Lists(order) && NamedAfterCases(f.occurrences) && Compose(f, order, cap).Some?
    ensures forall i, j | 0 <= i < j < |unlisted| :: unlisted[i] != unlisted[j]
    ensures forall i, j | 0 <= i < j < |unlisted| ::
      unlisted[i].at < unlisted[j].at || (unlisted[i].at == unlisted[j].at && unlisted[i].tick <= unlisted[j].tick)
    ensures forall r :: r in unlisted <==>
      r.caseId in f.occurrences && f.occurrences[r.caseId] == r && !InLegacy(f, r.caseId) && !InLegacy(f, r.refId)
    ensures var all := (if f.legacy.Some? then LegacyMembers(f.legacy.value.members) else []) + CaseIds(unlisted);
      Compose(f, order, cap).value.members == if |all| <= cap then all else all[|all| - cap..]
  {
    unlisted := UnlistedInOrder(f, order);
    MembersOf(f, order, cap, unlisted);
    OrderIsTime(unlisted);
    hide Compose, InOrder, LegacyMembers, CaseIds;
  }

  /** The unlisted objects, sorted. */
  lemma UnlistedInOrder(f: Folder, order: Listing) returns (unlisted: seq<Record>)
    requires Lists(order) && NamedAfterCases(f.occurrences)
    ensures unlisted == Fresh(ByArrival(Fetched(f.occurrences, order(f.occurrences.Keys))), Listed(f))
    ensures InOrder(unlisted) && NoRepeats(unlisted)
    ensures forall r :: r in unlisted <==>
      r.caseId in f.occurrences && f.occurrences[r.caseId] == r && !InLegacy(f, r.caseId) && !InLegacy(f, r.refId)
  {
    var names := order(f.occurrences.Keys);
    var s := Fetched(f.occurrences, names);
    FetchedAreObjects(f.occurrences, names);
    SortedNoRepeats(s);
    SortedInOrder(s);
    FreshMeaning(ByArrival(s), Listed(f));
    unlisted := Fresh(ByArrival(s), Listed(f));
    ListedIsLegacy(f);
    hide Fetched, ByArrival, Fresh, InOrder, NoRepeats, NamedAfterCases, Listed, InLegacy, Distinct;
  }

  lemma ListedIsLegacy(f: Folder)
    ensures forall name :: name in Listed(f) <==> InLegacy(f, name)
  {
  }

  lemma MembersOf(f: Folder, order: Listing, cap: nat, unlisted: seq<Record>)
    requires unlisted == Fresh(ByArrival(Fetched(f.occurrences, order(f.occurrences.Keys))), Listed(f))
    requires Compose(f, order, cap).Some?
    ensures var all := (if f.legacy.Some? then LegacyMembers(f.legacy.value.members) else []) + CaseIds(unlisted);
      Compose(f, order, cap).value.members == if |all| <= cap then all else all[|all| - cap..]
  {
    hide Fresh, ByArrival, Fetched, Listed, Tally, CaseIds;
  }

  lemma OrderIsTime(s: seq<Record>)
    requires InOrder(s)
    ensures forall i, j | 0 <= i < j < |s| :: s[i].at < s[j].at || (s[i].at == s[j].at && s[i].tick <= s[j].tick)
  {
    forall i, j | 0 <= i < j < |s|
      ensures s[i].at < s[j].at || (s[i].at == s[j].at && s[i].tick <= s[j].tick)
    {
      assert !Earlier(s[j], s[i]);
    }
  }
}
