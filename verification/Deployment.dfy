/** The verdict of the replay precheck against the history it is a verdict about. */
module Deployment {
  import opened Options
  import opened Versions
  import opened CodeCheck

  // ---------------------------------------------------------------------
  // A linear history, and answers that are true of it
  // ---------------------------------------------------------------------

  /** A commit as it landed on the branch, with the version the version file then held, and whether the
      repository's listing gives its time in a form that can be read. */
  datatype Landed = Landed(id: string, time: int, readable: bool, touched: set<Path>, version: Version)

  predicate Bumped(c: Landed, repo: Repo) { TouchesVersionFile(c.touched, repo.versionFile) }

  /** Oldest first: times increase, ids are distinct, and the version never decreases. */
  ghost predicate Linear(h: seq<Landed>) {
    && (forall i, j | 0 <= i < j < |h| :: h[i].time < h[j].time && h[i].id != h[j].id)
    && (forall i | 0 < i < |h| :: Compare(h[i - 1].version, h[i].version) <= 0)
  }

  /** Every history version carries a build counter, or none does. */
  predicate Uniform(h: seq<Landed>) {
    forall i, j | 0 <= i < |h| && 0 <= j < |h| :: h[i].version.build.Some? == h[j].version.build.Some?
  }

  function AsListed(c: Landed): Commit { Commit(c.id, if c.readable then Some(c.time) else None) }

  /** `c` is the listing of the commit at `x`. */
  predicate Lists(h: seq<Landed>, c: Commit, x: nat) { x < |h| && c == AsListed(h[x]) }

  /** What the repository answers is true: listed commits are commits of the history that touch the
      path, with their times where readable; change sets and versions are those of the commit. Lists may
      be cut short. */
  ghost predicate Truthful(answers: Answers, h: seq<Landed>) {
    && (forall p, c | p in answers.commits && c in answers.commits[p] :: exists x: nat :: Lists(h, c, x) && p in h[x].touched)
    && (forall x | 0 <= x < |h| && h[x].id in answers.changed :: answers.changed[h[x].id] <= h[x].touched)
    && (forall x | 0 <= x < |h| && h[x].id in answers.version :: answers.version[h[x].id] == h[x].version)
  }

  /** Versions alike in carrying a counter are in one line: not above, not above, not above. */
  lemma UniformOrder(a: Version, b: Version, c: Version)
    requires a.build.Some? == b.build.Some? == c.build.Some?
    requires Compare(a, b) <= 0 && Compare(b, c) <= 0
    ensures Compare(a, c) <= 0
    ensures Compare(a, b) < 0 || Compare(b, c) < 0 ==> Compare(a, c) < 0
  {
    hide Compare;
    if Compare(a, b) == 0 {
      TiedComparesAlike(a, b, c);
    } else if Compare(b, c) == 0 {
      CompareAntisymmetric(b, c);
      TiedComparesAlike(c, b, a);
      CompareAntisymmetric(a, b);
      CompareAntisymmetric(a, c);
    } else {
      CompareTransitive(a, b, c);
    }
  }

  lemma TiedComparesAlike(a: Version, b: Version, c: Version)
    requires a.build.Some? == b.build.Some? && Compare(a, b) == 0
    ensures Compare(a, c) < 0 <==> Compare(b, c) < 0
    ensures Compare(a, c) > 0 <==> Compare(b, c) > 0
  {
    TiedVersions(a, b);
    SameBelow(a, b, c);
    SameBelow(b, a, c) by { SameCoreSymmetric(a.core, b.core); }
    CompareMeaning(a, c);
    CompareMeaning(b, c);
    hide Compare, Below;
  }

  lemma SameBelow(a: Version, b: Version, c: Version)
    requires SameCore(a.core, b.core) && a.snapshot == b.snapshot && (a.build == b.build || c.build.None?)
    ensures Below(a, c) ==> Below(b, c)
    ensures Below(c, a) ==> Below(c, b)
  {
    SameCoreSymmetric(a.core, b.core);
    if CoreBelow(a.core, c.core) {
      CoreTransitive(b.core, a.core, c.core);
    }
    if CoreBelow(c.core, a.core) {
      CoreTransitive(c.core, a.core, b.core);
    }
    if SameCore(a.core, c.core) {
      CoreTransitive(b.core, a.core, c.core);
    }
    if SameCore(c.core, a.core) {
      CoreTransitive(c.core, a.core, b.core);
    }
    hide CoreBelow;
  }

  lemma {:induction false} VersionsGrow(h: seq<Landed>, i: nat, j: nat)
    requires Linear(h) && Uniform(h) && i <= j < |h|
    ensures Compare(h[i].version, h[j].version) <= 0
    decreases j - i
  {
    hide Compare;
    if i < j {
      VersionsGrow(h, i, j - 1);
      UniformOrder(h[i].version, h[j - 1].version, h[j].version);
    } else {
      CompareAntisymmetric(h[i].version, h[i].version);
    }
  }

  lemma {:induction false} SinceMeaning(commits: seq<Commit>, since: Option<int>)
    ensures forall c :: c in Since(commits, since) <==>
      c in commits && (since.None? || c.timestamp.None? || c.timestamp.value >= since.value)
  {
    if commits != [] {
      SinceMeaning(commits[1..], since);
    }
  }

  /** A resolved version is a version of the history, and no more than that can be said of it in general. */
  lemma ResolvesToVersion(answers: Answers, h: seq<Landed>, repo: Repo, c: Commit, x: nat) returns (r: nat)
    requires Truthful(answers, h) && Lists(h, c, x) && FirstContaining(answers, repo, c).In?
    ensures r < |h| && FirstContaining(answers, repo, c) == In(h[r].version)
  {
    if TouchesVersionFile(answers.changed[c.id], repo.versionFile) {
      r := x;
    } else {
      var listed := answers.commits[repo.versionFile];
      var bumps := Since(listed, c.timestamp);
      SinceMeaning(listed, c.timestamp);
      var oldest := bumps[|bumps| - 1];
      assert oldest in bumps;
      r :| Lists(h, oldest, r) && repo.versionFile in h[r].touched;
    }
  }

  // ---------------------------------------------------------------------
  // The highest required version
  // ---------------------------------------------------------------------

  /** The required version is one a candidate resolved to, and no candidate resolved above it. */
  ghost predicate Covers(required: Required, answers: Answers, repo: Repo, commits: seq<Commit>) {
    forall c | c in commits && FirstContaining(answers, repo, c).In? ::
      required.AtVersion? && Compare(FirstContaining(answers, repo, c).version, required.version) <= 0
  }

  ghost predicate NotBelow(required: Required, start: Required) {
    start.AtVersion? ==> required.AtVersion? && (required == start || Compare(start.version, required.version) < 0)
  }

  lemma RequireRaises(start: Required, r: Resolution)
    ensures NotBelow(Require(start, r), start)
    ensures r.In? ==> Require(start, r).AtVersion? && Compare(r.version, Require(start, r).version) <= 0
  {
    hide Compare;
    if r.In? {
      CompareAntisymmetric(r.version, r.version);
      if start.AtVersion? {
        CompareAntisymmetric(r.version, start.version);
      }
    }
  }

  lemma StaysCovered(v: Version, mid: Version, top: Version)
    requires Compare(v, mid) <= 0 && (top == mid || Compare(mid, top) < 0)
    ensures Compare(v, top) <= 0
  {
    hide Compare;
    if Compare(v, top) > 0 {
      CompareAntisymmetric(v, top);
      if top != mid {
        CompareTransitive(mid, top, v);
      }
      CompareAntisymmetric(v, mid);
    }
  }

  /** Candidates with one id are one commit. */
  predicate IdsAreCommits(commits: seq<Commit>) {
    forall a, b | a in commits && b in commits && a.id == b.id :: a == b
  }

  lemma {:induction false} HighestMeaning(answers: Answers, repo: Repo, commits: seq<Commit>, seen: set<string>, start: Required)
    requires IdsAreCommits(commits)
    requires forall c | c in commits && c.id in seen && FirstContaining(answers, repo, c).In? ::
      start.AtVersion? && Compare(FirstContaining(answers, repo, c).version, start.version) <= 0
    ensures var top := Highest(answers, repo, commits, seen, start);
      && NotBelow(top, start) && Covers(top, answers, repo, commits)
      && (top.AtVersion? ==> top == start || exists c :: c in commits && FirstContaining(answers, repo, c) == In(top.version))
    decreases |commits|
  {
    if commits != [] {
      hide Compare, FirstContaining;
      var c, rest := commits[0], commits[1..];
      if c.id in seen {
        HighestMeaning(answers, repo, rest, seen, start);
        KeepsCovering(Highest(answers, repo, rest, seen, start), start, answers, repo, c);
        assert commits == [c] + rest;
      } else {
        var r := FirstContaining(answers, repo, c);
        var next := Require(start, r);
        RequireRaises(start, r);
        forall d | d in rest && d.id in seen + {c.id} && FirstContaining(answers, repo, d).In?
          ensures next.AtVersion? && Compare(FirstContaining(answers, repo, d).version, next.version) <= 0
        {
          if d.id == c.id {
            assert d == c;
          } else {
            StaysCovered(FirstContaining(answers, repo, d).version, start.version, next.version);
          }
        }
        HighestMeaning(answers, repo, rest, seen + {c.id}, next);
        var top := Highest(answers, repo, rest, seen + {c.id}, next);
        KeepsCovering(top, next, answers, repo, c);
        NotBelowTransitive(top, next, start);
        assert commits == [c] + rest;
      }
    }
  }

  lemma KeepsCovering(top: Required, mid: Required, answers: Answers, repo: Repo, c: Commit)
    requires NotBelow(top, mid)
    requires FirstContaining(answers, repo, c).In? ==>
      mid.AtVersion? && Compare(FirstContaining(answers, repo, c).version, mid.version) <= 0
    ensures FirstContaining(answers, repo, c).In? ==>
      top.AtVersion? && Compare(FirstContaining(answers, repo, c).version, top.version) <= 0
  {
    hide Compare, FirstContaining;
    if FirstContaining(answers, repo, c).In? {
      StaysCovered(FirstContaining(answers, repo, c).version, mid.version, top.version);
    }
  }

  lemma NotBelowTransitive(top: Required, mid: Required, start: Required)
    requires NotBelow(top, mid) && NotBelow(mid, start)
    ensures NotBelow(top, start)
  {
    hide Compare;
    if start.AtVersion? && top != mid && mid != start {
      CompareTransitive(start.version, mid.version, top.version);
    }
  }

  // ---------------------------------------------------------------------
  // Candidates come from one repository's answers
  // ---------------------------------------------------------------------

  function FramesChecked(settings: Settings, locations: seq<Frame>): seq<Frame> {
    if |locations| <= settings.maxFrames then locations else locations[..settings.maxFrames]
  }

  function ChangedProbes(settings: Settings, server: string -> Answers, locations: seq<Frame>, failedAt: Option<int>): seq<Probe> {
    Changed(Probes(server, FramesChecked(settings, locations), failedAt))
  }

  lemma {:induction false} ChangedMeaning(probes: seq<Probe>, p: Probe)
    ensures p in Changed(probes) <==> p in probes && p.Probe? && p.commits.Some? && p.commits.value != []
  {
    if probes != [] {
      ChangedMeaning(probes[1..], p);
      assert probes == [probes[0]] + probes[1..];
    }
  }

  lemma {:induction false} CandidateHasProbe(probes: seq<Probe>, max: nat, c: Commit) returns (p: Probe)
    requires c in Candidates(probes, max)
    ensures p in probes && p.Probe? && p.commits.Some? && c in p.commits.value
  {
    var own: seq<Commit> := if probes[0].Probe? && probes[0].commits.Some? then Upto(probes[0].commits.value, max) else [];
    if c in own {
      p := probes[0];
    } else {
      assert Candidates(probes, max) == own + Candidates(probes[1..], max);
      p := CandidateHasProbe(probes[1..], max, c);
    }
  }

  lemma {:induction false} AskedIsAFrame(frames: seq<Frame>, path: Path)
    requires AskedRepo(frames, path).Some?
    ensures Frame.Mapped(AskedRepo(frames, path).value, path) in frames
  {
    if !(frames[0].Mapped? && frames[0].path == path) {
      AskedIsAFrame(frames[1..], path);
    }
  }

  lemma ProbeHasFrame(server: string -> Answers, frames: seq<Frame>, since: Option<int>, p: Probe)
    requires p in Probes(server, frames, since) && p.Probe?
    ensures AskedRepo(frames, p.path).Some?
    ensures p.commits == CommitsTouching(server(AskedRepo(frames, p.path).value.slug), p.path, since)
  {
    var k :| 0 <= k < |frames| && Probes(server, frames, since)[k] == p;
  }

  lemma FrameHasProbe(server: string -> Answers, frames: seq<Frame>, since: Option<int>, f: Frame)
    requires f in frames
    ensures ProbeOf(server, frames, f, since) in Probes(server, frames, since)
  {
    var k :| 0 <= k < |frames| && frames[k] == f;
    assert Probes(server, frames, since)[k] == ProbeOf(server, frames, f, since);
  }

  /** When the changed probes are in one repository, each was answered by that repository. */
  lemma ChangedAnswersOwn(server: string -> Answers, frames: seq<Frame>, since: Option<int>, p: Probe)
    requires var changed := Changed(Probes(server, frames, since)); p in changed && OneRepository(changed)
    ensures p.Probe? && p.commits == CommitsTouching(server(p.repo.slug), p.path, since)
  {
    var probes := Probes(server, frames, since);
    ChangedMeaning(probes, p);
    ProbeHasFrame(server, frames, since, p);
    var asked := AskedRepo(frames, p.path).value;
    AskedIsAFrame(frames, p.path);
    FrameHasProbe(server, frames, since, Frame.Mapped(asked, p.path));
    var q := Probe(asked, p.path, p.commits);
    ChangedMeaning(probes, q);
    SameSlug(Changed(probes), p, q);
  }

  lemma SameSlug(probes: seq<Probe>, p: Probe, q: Probe)
    requires OneRepository(probes) && p in probes && q in probes && p.Probe? && q.Probe?
    ensures p.repo.slug == q.repo.slug
  {
    var i :| 0 <= i < |probes| && probes[i] == p;
    var j :| 0 <= j < |probes| && probes[j] == q;
  }

  /** The situation the theorems are about: one repository, its history, and true answers. */
  ghost predicate Observed(settings: Settings, server: string -> Answers, locations: seq<Frame>, failedAt: Option<int>,
                           repo: Repo, h: seq<Landed>)
  {
    var changed := ChangedProbes(settings, server, locations, failedAt);
    && changed != [] && changed[0].Probe? && repo == changed[0].repo && OneRepository(changed)
    && Linear(h) && Uniform(h) && Truthful(server(repo.slug), h)
  }

  function CandidatesOf(settings: Settings, server: string -> Answers, locations: seq<Frame>, failedAt: Option<int>): seq<Commit> {
    Candidates(ChangedProbes(settings, server, locations, failedAt), settings.maxCandidates)
  }

  lemma CandidateLanded(settings: Settings, server: string -> Answers, locations: seq<Frame>, failedAt: Option<int>,
                        repo: Repo, h: seq<Landed>, c: Commit) returns (x: nat)
    requires Observed(settings, server, locations, failedAt, repo, h)
    requires c in CandidatesOf(settings, server, locations, failedAt)
    ensures Lists(h, c, x)
  {
    hide Linear, Uniform, OneRepository, Changed, Probes, Candidates;
    var frames := FramesChecked(settings, locations);
    var changed := ChangedProbes(settings, server, locations, failedAt);
    var p := CandidateHasProbe(changed, settings.maxCandidates, c);
    ChangedAnswersOwn(server, frames, failedAt, p);
    SameSlug(changed, p, changed[0]);
    var answers := server(repo.slug);
    SinceMeaning(answers.commits[p.path], failedAt);
    assert c in answers.commits[p.path];
    x :| Lists(h, c, x) && p.path in h[x].touched;
  }

  lemma CandidateIds(settings: Settings, server: string -> Answers, locations: seq<Frame>, failedAt: Option<int>,
                     repo: Repo, h: seq<Landed>)
    requires Observed(settings, server, locations, failedAt, repo, h)
    ensures IdsAreCommits(CandidatesOf(settings, server, locations, failedAt))
  {
    var cs := CandidatesOf(settings, server, locations, failedAt);
    forall a, b | a in cs && b in cs && a.id == b.id
      ensures a == b
    {
      var x := CandidateLanded(settings, server, locations, failedAt, repo, h, a);
      var y := CandidateLanded(settings, server, locations, failedAt, repo, h, b);
      LandedOnce(h, x, y);
    }
  }

  lemma LandedOnce(h: seq<Landed>, x: nat, y: nat)
    requires Linear(h) && x < |h| && y < |h| && h[x].id == h[y].id
    ensures x == y
  {
    assert x < y || y < x || x == y;
  }

  // ---------------------------------------------------------------------
  // What the running builds say
  // ---------------------------------------------------------------------

  /** A build tag: the version the build was cut at, with a build counter of its own where the
      version file carries none. */
  ghost predicate Labels(tag: Version, v: Version) {
    SameCore(tag.core, v.core) && tag.snapshot == v.snapshot && (v.build.None? || tag.build == v.build)
  }

  /** Each running pod reports the label of a build cut from a commit of the history. */
  ghost predicate Running(runnings: seq<Option<Version>>, builds: seq<nat>, h: seq<Landed>) {
    |runnings| == |builds| && forall p | 0 <= p < |runnings| ::
      runnings[p].Some? && builds[p] < |h| && Labels(runnings[p].value, h[builds[p]].version)
  }

  /** A build's label compares with a version as the version it was cut at does. */
  lemma LabelCompares(tag: Version, v: Version, r: Version)
    requires Labels(tag, v) && v.build.Some? == r.build.Some?
    ensures Compare(tag, r) >= 0 <==> Compare(v, r) >= 0
  {
    hide Compare, Below;
    CompareMeaning(tag, r);
    CompareMeaning(v, r);
    SameBelow(tag, v, r);
    SameCoreSymmetric(tag.core, v.core);
    SameBelow(v, tag, r);
  }

  lemma LabelsUniform(runnings: seq<Option<Version>>, builds: seq<nat>, h: seq<Landed>, v: Version)
    requires Running(runnings, builds, h) && Uniform(h) && exists r: nat :: r < |h| && h[r].version == v
    ensures v.build.None? || UniformBuilds(runnings)
  {
  }

  /** Every running build was cut where the version file held at least `top`. */
  ghost predicate AllAtLeast(h: seq<Landed>, builds: seq<nat>, top: Version) {
    forall p | 0 <= p < |builds| :: builds[p] < |h| && Compare(h[builds[p]].version, top) >= 0
  }

  /** The lowest label speaks for all of them. */
  lemma FloorSpeaksForAll(runnings: seq<Option<Version>>, builds: seq<nat>, h: seq<Landed>, r: nat)
    requires Uniform(h) && Running(runnings, builds, h) && builds != [] && r < |h|
    ensures Lowest(runnings).Some?
    ensures AtLeast(Lowest(runnings), Some(h[r].version)) == Some(true) <==> AllAtLeast(h, builds, h[r].version)
  {
    hide Compare, Lowest;
    var top := h[r].version;
    LowestMeaning(runnings);
    LabelsUniform(runnings, builds, h, top);
    forall p | 0 <= p < |builds|
      ensures AtLeast(runnings[p], Some(top)) == Some(true) <==> Compare(h[builds[p]].version, top) >= 0
    {
      LabelCompares(runnings[p].value, h[builds[p]].version, top);
    }
    if AtLeast(Lowest(runnings), Some(top)) == Some(true) {
      forall p | 0 <= p < |builds|
        ensures Compare(h[builds[p]].version, top) >= 0
      {
        assert runnings[p] in runnings;
        LowestIsFloor(runnings, top, runnings[p]);
      }
    } else {
      var p :| 0 <= p < |runnings| && runnings[p] == Lowest(runnings);
    }
  }

  // ---------------------------------------------------------------------
  // When the verdict is right
  // ---------------------------------------------------------------------

  /** Commit `c` is a candidate at `x` whose version was resolved. */
  ghost predicate Resolved(answers: Answers, repo: Repo, candidates: seq<Commit>, h: seq<Landed>, c: Commit, x: nat) {
    c in candidates && Lists(h, c, x) && FirstContaining(answers, repo, c).In?
  }

  /** A build cut at `b` contains every resolved candidate. */
  ghost predicate HasAll(answers: Answers, repo: Repo, candidates: seq<Commit>, h: seq<Landed>, b: nat) {
    forall c, x: nat | Resolved(answers, repo, candidates, h, c, x) :: b >= x
  }

  ghost predicate AllContained(answers: Answers, repo: Repo, candidates: seq<Commit>, h: seq<Landed>, builds: seq<nat>) {
    forall p | 0 <= p < |builds| :: HasAll(answers, repo, candidates, h, builds[p])
  }

  /** The check can come to a verdict on versions: it is on, the call path was read, some candidate was
      resolved, and the version it requires is strictly ahead of the failing builds. */
  ghost predicate CanDecide(settings: Settings, server: string -> Answers, locations: seq<Frame>, failedAt: Option<int>,
                            baselines: seq<Option<Version>>, repo: Repo)
  {
    var top := RequiredOf(settings, server, locations, failedAt, repo);
    && settings.enabled && settings.checkedClass && settings.configured && locations != []
    && !Unread(Probes(server, FramesChecked(settings, locations), failedAt))
    && top.AtVersion? && IsAhead(Some(top.version), Lowest(baselines)) == Some(true)
  }

  function RequiredOf(settings: Settings, server: string -> Answers, locations: seq<Frame>, failedAt: Option<int>, repo: Repo): Required {
    Highest(server(repo.slug), repo, CandidatesOf(settings, server, locations, failedAt), {}, NothingResolved)
  }

  lemma {:induction false} MappedWhenChanged(probes: seq<Probe>)
    requires Changed(probes) != []
    ensures MappedProbes(probes) != []
  {
    if !probes[0].Probe? {
      MappedWhenChanged(probes[1..]);
    }
  }

  /** What the verdict then is, and that the required version is one a candidate resolved to. */
  lemma DecidesByFloor(settings: Settings, server: string -> Answers, locations: seq<Frame>, failedAt: Option<int>,
                       baselines: seq<Option<Version>>, runnings: seq<Option<Version>>, repo: Repo, h: seq<Landed>)
    requires Observed(settings, server, locations, failedAt, repo, h) && Lowest(runnings).Some?
    requires CanDecide(settings, server, locations, failedAt, baselines, repo)
    ensures var top := RequiredOf(settings, server, locations, failedAt, repo).version;
      Evaluate(settings, server, locations, failedAt, baselines, runnings)
        == Check(if AtLeast(Lowest(runnings), Some(top)) == Some(true) then FixDeployed else NotDeployed, Some(top))
  {
    hide Highest, Compare, Lowest, FirstContaining, Candidates, Linear, Uniform, Truthful, OneRepository, Probes, Changed, MappedProbes, Unread;
    MappedWhenChanged(Probes(server, FramesChecked(settings, locations), failedAt));
  }

  lemma RequiredLanded(settings: Settings, server: string -> Answers, locations: seq<Frame>, failedAt: Option<int>,
                       repo: Repo, h: seq<Landed>) returns (r: nat)
    requires Observed(settings, server, locations, failedAt, repo, h)
    requires RequiredOf(settings, server, locations, failedAt, repo).AtVersion?
    ensures r < |h| && h[r].version == RequiredOf(settings, server, locations, failedAt, repo).version
    ensures var answers := server(repo.slug); var candidates := CandidatesOf(settings, server, locations, failedAt);
      && (forall c, x: nat | Resolved(answers, repo, candidates, h, c, x) ::
            Compare(FirstContaining(answers, repo, c).version, h[r].version) <= 0)
      && exists c, x: nat :: Resolved(answers, repo, candidates, h, c, x)
  {
    hide Highest, Compare, FirstContaining, Candidates, Linear, Uniform, Truthful, OneRepository;
    var answers := server(repo.slug);
    var candidates := CandidatesOf(settings, server, locations, failedAt);
    CandidateIds(settings, server, locations, failedAt, repo, h);
    HighestMeaning(answers, repo, candidates, {}, NothingResolved);
    var top := RequiredOf(settings, server, locations, failedAt, repo);
    var d :| d in candidates && FirstContaining(answers, repo, d) == In(top.version);
    var y := CandidateLanded(settings, server, locations, failedAt, repo, h, d);
    r := ResolvesToVersion(answers, h, repo, d, y);
    assert Resolved(answers, repo, candidates, h, d, y);
  }

  /** Whether it says FIX_DEPLOYED of the builds, for builds cut from commits of the history. */
  lemma SaysDeployed(settings: Settings, server: string -> Answers, locations: seq<Frame>, failedAt: Option<int>,
                     baselines: seq<Option<Version>>, runnings: seq<Option<Version>>, repo: Repo, h: seq<Landed>, builds: seq<nat>)
    requires Observed(settings, server, locations, failedAt, repo, h) && Running(runnings, builds, h) && builds != []
    requires CanDecide(settings, server, locations, failedAt, baselines, repo)
    ensures var top := RequiredOf(settings, server, locations, failedAt, repo).version;
      Evaluate(settings, server, locations, failedAt, baselines, runnings).verdict
        == if AllAtLeast(h, builds, top) then FixDeployed else NotDeployed
  {
    hide Highest, Compare, Lowest, FirstContaining, Candidates, Linear, Truthful, OneRepository, Running, Evaluate;
    var r := RequiredLanded(settings, server, locations, failedAt, repo, h);
    FloorSpeaksForAll(runnings, builds, h, r);
    DecidesByFloor(settings, server, locations, failedAt, baselines, runnings, repo, h);
  }

  /** Each commit builds may be cut from holds at least the required version exactly when it has all. */
  ghost predicate Separates(answers: Answers, repo: Repo, candidates: seq<Commit>, h: seq<Landed>, top: Version, cuts: set<nat>) {
    forall b | b in cuts && b < |h| :: Compare(h[b].version, top) >= 0 <==> HasAll(answers, repo, candidates, h, b)
  }

  /** The verdict on these builds is the truth: FIX_DEPLOYED when each contains every resolved candidate,
      NOT_DEPLOYED when one does not. */
  ghost predicate Right(settings: Settings, server: string -> Answers, locations: seq<Frame>, failedAt: Option<int>,
                        baselines: seq<Option<Version>>, runnings: seq<Option<Version>>, repo: Repo, h: seq<Landed>, builds: seq<nat>)
  {
    Evaluate(settings, server, locations, failedAt, baselines, runnings).verdict
      == if AllContained(server(repo.slug), repo, CandidatesOf(settings, server, locations, failedAt), h, builds)
         then FixDeployed else NotDeployed
  }

  ghost predicate CutFrom(builds: seq<nat>, cuts: set<nat>) { builds != [] && forall p | 0 <= p < |builds| :: builds[p] in cuts }

  /** One pod, running the build cut at `b`. */
  lemma OneBuild(settings: Settings, server: string -> Answers, locations: seq<Frame>, failedAt: Option<int>,
                 baselines: seq<Option<Version>>, repo: Repo, h: seq<Landed>, b: nat)
    requires Observed(settings, server, locations, failedAt, repo, h) && b < |h|
    requires CanDecide(settings, server, locations, failedAt, baselines, repo)
    ensures Running([Some(h[b].version)], [b], h)
    ensures var answers := server(repo.slug); var candidates := CandidatesOf(settings, server, locations, failedAt);
      var top := RequiredOf(settings, server, locations, failedAt, repo).version;
      && (Evaluate(settings, server, locations, failedAt, baselines, [Some(h[b].version)]).verdict
            == if Compare(h[b].version, top) >= 0 then FixDeployed else NotDeployed)
      && (AllContained(answers, repo, candidates, h, [b]) <==> HasAll(answers, repo, candidates, h, b))
  {
    hide Compare, Observed, Evaluate, HasAll, RequiredOf, Probes, Unread;
    assert SameCore(h[b].version.core, h[b].version.core);
    SaysDeployed(settings, server, locations, failedAt, baselines, [Some(h[b].version)], repo, h, [b]);
    var top := RequiredOf(settings, server, locations, failedAt, repo).version;
    assert [b][0] == b;
    assert AllAtLeast(h, [b], top) ==> Compare(h[[b][0]].version, top) >= 0;
  }

  /** Of builds cut from given commits, the verdict is always right if and only if the version file's
      content at those commits tells which of them contain every resolved candidate. */
  lemma RightExactlyWhenSeparated(settings: Settings, server: string -> Answers, locations: seq<Frame>, failedAt: Option<int>,
                                  baselines: seq<Option<Version>>, repo: Repo, h: seq<Landed>, cuts: set<nat>)
    requires Observed(settings, server, locations, failedAt, repo, h)
    requires CanDecide(settings, server, locations, failedAt, baselines, repo)
    ensures var answers := server(repo.slug); var candidates := CandidatesOf(settings, server, locations, failedAt);
      var top := RequiredOf(settings, server, locations, failedAt, repo).version;
      (forall runnings, builds | Running(runnings, builds, h) && CutFrom(builds, cuts) ::
         Right(settings, server, locations, failedAt, baselines, runnings, repo, h, builds))
      <==> Separates(answers, repo, candidates, h, top, cuts)
  {
    hide Compare, Observed, Evaluate, HasAll, CandidatesOf, RequiredOf, Highest, Probes, Unread;
    var answers, candidates := server(repo.slug), CandidatesOf(settings, server, locations, failedAt);
    var top := RequiredOf(settings, server, locations, failedAt, repo).version;
    if Separates(answers, repo, candidates, h, top, cuts) {
      forall runnings, builds | Running(runnings, builds, h) && CutFrom(builds, cuts)
        ensures Right(settings, server, locations, failedAt, baselines, runnings, repo, h, builds)
      {
        SaysDeployed(settings, server, locations, failedAt, baselines, runnings, repo, h, builds);
      }
    } else {
      var b :| b in cuts && b < |h| && !(Compare(h[b].version, top) >= 0 <==> HasAll(answers, repo, candidates, h, b));
      OneBuild(settings, server, locations, failedAt, baselines, repo, h, b);
      assert CutFrom([b], cuts);
      assert !Right(settings, server, locations, failedAt, baselines, [Some(h[b].version)], repo, h, [b]);
    }
  }

  // ---------------------------------------------------------------------
  // Builds cut from any commit
  // ---------------------------------------------------------------------

  /** Just below each resolved candidate, the version file held a version below `top`. */
  ghost predicate ParentsBehind(answers: Answers, repo: Repo, candidates: seq<Commit>, h: seq<Landed>, top: Version) {
    forall c, x: nat | Resolved(answers, repo, candidates, h, c, x) :: x == 0 || Compare(h[x - 1].version, top) < 0
  }

  /** At the newest resolved candidate, the version file already held at least `top`. */
  ghost predicate NewestShips(answers: Answers, repo: Repo, candidates: seq<Commit>, h: seq<Landed>, top: Version) {
    forall c, x: nat | Resolved(answers, repo, candidates, h, c, x) && HasAll(answers, repo, candidates, h, x) ::
      Compare(h[x].version, top) >= 0
  }

  /** What a version says about a commit: every build labelled at least `v` contains the commit at `x`, if
      and only if the version just below that commit was below `v`. One read at the parent tells. */
  lemma ContainedExactly(h: seq<Landed>, x: nat, r: nat)
    requires Linear(h) && Uniform(h) && x < |h| && r < |h|
    ensures (forall tag, b: nat | b < |h| && Labels(tag, h[b].version) && Compare(tag, h[r].version) >= 0 :: b >= x)
      <==> x == 0 || Compare(h[x - 1].version, h[r].version) < 0
  {
    hide Compare;
    var v := h[r].version;
    if x == 0 || Compare(h[x - 1].version, v) < 0 {
      forall tag, b: nat | b < |h| && Labels(tag, h[b].version) && Compare(tag, v) >= 0
        ensures b >= x
      {
        LabelCompares(tag, h[b].version, v);
        if b < x {
          VersionsGrow(h, b, x - 1);
          UniformOrder(h[b].version, h[x - 1].version, v);
        }
      }
    } else {
      assert SameCore(h[x - 1].version.core, h[x - 1].version.core);
      assert Labels(h[x - 1].version, h[x - 1].version);
    }
  }

  /** A build below a resolved candidate does not reach `top`, if its parent does not. */
  lemma BehindParent(h: seq<Landed>, x: nat, r: nat, b: nat)
    requires Linear(h) && Uniform(h) && b < x < |h| && r < |h| && Compare(h[x - 1].version, h[r].version) < 0
    ensures Compare(h[b].version, h[r].version) < 0
  {
    hide Compare;
    VersionsGrow(h, b, x - 1);
    UniformOrder(h[b].version, h[x - 1].version, h[r].version);
  }

  /** FIX_DEPLOYED, whatever builds run, implies that each contains every resolved candidate, if and only
      if the version at the parent of each was below the required one. This is all that can go wrong: a
      version file edited without a bump, a nested one counted by its name, a time that cannot be read. */
  lemma FixDeployedIsRightExactly(settings: Settings, server: string -> Answers, locations: seq<Frame>, failedAt: Option<int>,
                                  baselines: seq<Option<Version>>, repo: Repo, h: seq<Landed>)
    requires Observed(settings, server, locations, failedAt, repo, h)
    requires CanDecide(settings, server, locations, failedAt, baselines, repo)
    ensures var answers := server(repo.slug); var candidates := CandidatesOf(settings, server, locations, failedAt);
      (forall runnings, builds | Running(runnings, builds, h)
         && Evaluate(settings, server, locations, failedAt, baselines, runnings).verdict == FixDeployed ::
         AllContained(answers, repo, candidates, h, builds))
      <==> ParentsBehind(answers, repo, candidates, h, RequiredOf(settings, server, locations, failedAt, repo).version)
  {
    hide Compare, Linear, Uniform, Truthful, OneRepository, Evaluate, CandidatesOf, RequiredOf, Highest, Probes, Unread, FirstContaining, Running;
    var answers, candidates := server(repo.slug), CandidatesOf(settings, server, locations, failedAt);
    var r := RequiredLanded(settings, server, locations, failedAt, repo, h);
    if ParentsBehind(answers, repo, candidates, h, h[r].version) {
      forall runnings, builds | Running(runnings, builds, h)
          && Evaluate(settings, server, locations, failedAt, baselines, runnings).verdict == FixDeployed
        ensures AllContained(answers, repo, candidates, h, builds)
      {
        if builds != [] {
          SaysDeployed(settings, server, locations, failedAt, baselines, runnings, repo, h, builds);
          ReachedHasAll(answers, repo, candidates, h, r, builds);
        }
      }
    } else {
      var c, x: nat :| Resolved(answers, repo, candidates, h, c, x) && x != 0 && Compare(h[x - 1].version, h[r].version) >= 0;
      OneBuild(settings, server, locations, failedAt, baselines, repo, h, x - 1);
    }
  }

  lemma ReachedHasAll(answers: Answers, repo: Repo, candidates: seq<Commit>, h: seq<Landed>, r: nat, builds: seq<nat>)
    requires Linear(h) && Uniform(h) && r < |h| && AllAtLeast(h, builds, h[r].version)
    requires ParentsBehind(answers, repo, candidates, h, h[r].version)
    ensures AllContained(answers, repo, candidates, h, builds)
  {
    hide Compare, Linear, Uniform, FirstContaining;
    forall p, c, x: nat | 0 <= p < |builds| && Resolved(answers, repo, candidates, h, c, x)
      ensures builds[p] >= x
    {
      if builds[p] < x {
        BehindParent(h, x, r, builds[p]);
      }
    }
  }

  lemma {:induction false} NewestOf(answers: Answers, repo: Repo, candidates: seq<Commit>, h: seq<Landed>, c: Commit, x: nat)
    returns (d: Commit, y: nat)
    requires Resolved(answers, repo, candidates, h, c, x)
    ensures Resolved(answers, repo, candidates, h, d, y) && HasAll(answers, repo, candidates, h, y)
    decreases |h| - x
  {
    hide FirstContaining;
    if HasAll(answers, repo, candidates, h, x) {
      d, y := c, x;
    } else {
      var e, z: nat :| Resolved(answers, repo, candidates, h, e, z) && z > x;
      d, y := NewestOf(answers, repo, candidates, h, e, z);
    }
  }

  /** NOT_DEPLOYED, whatever builds run, implies that one of them lacks a resolved candidate, if and only if
      the version at the newest of those already reached the required one. */
  lemma NotDeployedIsRightExactly(settings: Settings, server: string -> Answers, locations: seq<Frame>, failedAt: Option<int>,
                                  baselines: seq<Option<Version>>, repo: Repo, h: seq<Landed>)
    requires Observed(settings, server, locations, failedAt, repo, h)
    requires CanDecide(settings, server, locations, failedAt, baselines, repo)
    ensures var answers := server(repo.slug); var candidates := CandidatesOf(settings, server, locations, failedAt);
      (forall runnings, builds | Running(runnings, builds, h) && builds != []
         && Evaluate(settings, server, locations, failedAt, baselines, runnings).verdict == NotDeployed ::
         !AllContained(answers, repo, candidates, h, builds))
      <==> NewestShips(answers, repo, candidates, h, RequiredOf(settings, server, locations, failedAt, repo).version)
  {
    hide Compare, Linear, Uniform, Truthful, OneRepository, Evaluate, CandidatesOf, RequiredOf, Highest, Probes, Unread, FirstContaining, Running, HasAll;
    var answers, candidates := server(repo.slug), CandidatesOf(settings, server, locations, failedAt);
    var r := RequiredLanded(settings, server, locations, failedAt, repo, h);
    if NewestShips(answers, repo, candidates, h, h[r].version) {
      var c, x: nat :| Resolved(answers, repo, candidates, h, c, x);
      var d, y := NewestOf(answers, repo, candidates, h, c, x);
      forall runnings, builds | Running(runnings, builds, h) && builds != []
          && Evaluate(settings, server, locations, failedAt, baselines, runnings).verdict == NotDeployed
        ensures !AllContained(answers, repo, candidates, h, builds)
      {
        SaysDeployed(settings, server, locations, failedAt, baselines, runnings, repo, h, builds);
        if AllContained(answers, repo, candidates, h, builds) {
          HasAllReaches(answers, repo, candidates, h, r, d, y, runnings, builds);
        }
      }
    } else {
      var c, x: nat :| Resolved(answers, repo, candidates, h, c, x) && HasAll(answers, repo, candidates, h, x)
                       && Compare(h[x].version, h[r].version) < 0;
      OneBuild(settings, server, locations, failedAt, baselines, repo, h, x);
    }
  }

  lemma HasAllReaches(answers: Answers, repo: Repo, candidates: seq<Commit>, h: seq<Landed>, r: nat, d: Commit, y: nat,
                      runnings: seq<Option<Version>>, builds: seq<nat>)
    requires Linear(h) && Uniform(h) && r < |h| && Running(runnings, builds, h) && AllContained(answers, repo, candidates, h, builds)
    requires Resolved(answers, repo, candidates, h, d, y) && y < |h| && Compare(h[y].version, h[r].version) >= 0
    ensures AllAtLeast(h, builds, h[r].version)
  {
    hide Compare, Linear, Uniform, Resolved;
    forall p | 0 <= p < |builds|
      ensures Compare(h[builds[p]].version, h[r].version) >= 0
    {
      assert HasAll(answers, repo, candidates, h, builds[p]);
      Reaches(h, y, builds[p], r);
    }
  }

  lemma Reaches(h: seq<Landed>, y: nat, b: nat, r: nat)
    requires Linear(h) && Uniform(h) && y <= b < |h| && r < |h| && Compare(h[y].version, h[r].version) >= 0
    ensures Compare(h[b].version, h[r].version) >= 0
  {
    hide Compare;
    VersionsGrow(h, y, b);
    CompareAntisymmetric(h[y].version, h[r].version);
    UniformOrder(h[r].version, h[y].version, h[b].version);
    CompareAntisymmetric(h[r].version, h[b].version);
  }

  /** The verdict is right of every builds that may run, cut from any commits, if and only if the version
      moved with the candidates: below the required one just below each, and reaching it at the newest. */
  lemma VerdictIsExact(settings: Settings, server: string -> Answers, locations: seq<Frame>, failedAt: Option<int>,
                       baselines: seq<Option<Version>>, repo: Repo, h: seq<Landed>)
    requires Observed(settings, server, locations, failedAt, repo, h)
    requires CanDecide(settings, server, locations, failedAt, baselines, repo)
    ensures var answers := server(repo.slug); var candidates := CandidatesOf(settings, server, locations, failedAt);
      var top := RequiredOf(settings, server, locations, failedAt, repo).version;
      (forall runnings, builds | Running(runnings, builds, h) && builds != [] ::
         Right(settings, server, locations, failedAt, baselines, runnings, repo, h, builds))
      <==> ParentsBehind(answers, repo, candidates, h, top) && NewestShips(answers, repo, candidates, h, top)
  {
    hide Observed, CanDecide, Evaluate, CandidatesOf, ParentsBehind, NewestShips, AllContained, Running, RequiredOf;
    FixDeployedIsRightExactly(settings, server, locations, failedAt, baselines, repo, h);
    NotDeployedIsRightExactly(settings, server, locations, failedAt, baselines, repo, h);
    forall runnings, builds | Running(runnings, builds, h)
      ensures builds != [] ==> Evaluate(settings, server, locations, failedAt, baselines, runnings).verdict in {FixDeployed, NotDeployed}
      ensures Evaluate(settings, server, locations, failedAt, baselines, runnings).verdict == FixDeployed ==> builds != []
    {
      VerdictOnBuilds(settings, server, locations, failedAt, baselines, runnings, repo, h, builds);
    }
  }

  lemma VerdictOnBuilds(settings: Settings, server: string -> Answers, locations: seq<Frame>, failedAt: Option<int>,
                        baselines: seq<Option<Version>>, runnings: seq<Option<Version>>, repo: Repo, h: seq<Landed>, builds: seq<nat>)
    requires Observed(settings, server, locations, failedAt, repo, h) && Running(runnings, builds, h)
    requires CanDecide(settings, server, locations, failedAt, baselines, repo)
    ensures builds != [] ==> Evaluate(settings, server, locations, failedAt, baselines, runnings).verdict in {FixDeployed, NotDeployed}
    ensures Evaluate(settings, server, locations, failedAt, baselines, runnings).verdict == FixDeployed ==> builds != []
  {
    if builds == [] {
      LowestMeaning(runnings);
      hide Lowest, Highest, Compare;
    } else {
      hide *;
      SaysDeployed(settings, server, locations, failedAt, baselines, runnings, repo, h, builds);
    }
  }

  /** A verdict of FIX_DEPLOYED on a candidate whose parent was behind what the candidate resolved to: every
      running build contains it and everything older, and the required version is strictly ahead of the
      lowest failing build. */
  lemma FixDeployedIsSound(settings: Settings, server: string -> Answers, locations: seq<Frame>, failedAt: Option<int>,
                           baselines: seq<Option<Version>>, runnings: seq<Option<Version>>,
                           repo: Repo, h: seq<Landed>, builds: seq<nat>, c: Commit, x: nat, p: nat)
    requires Observed(settings, server, locations, failedAt, repo, h) && Running(runnings, builds, h)
    requires Evaluate(settings, server, locations, failedAt, baselines, runnings).verdict == FixDeployed
    requires Resolved(server(repo.slug), repo, CandidatesOf(settings, server, locations, failedAt), h, c, x) && p < |builds|
    requires x == 0 || Compare(h[x - 1].version, FirstContaining(server(repo.slug), repo, c).version) < 0
    ensures builds[p] >= x
    ensures var required := Evaluate(settings, server, locations, failedAt, baselines, runnings).required;
      IsAhead(required, Lowest(baselines)) == Some(true)
  {
    DeployedCanDecide(settings, server, locations, failedAt, baselines, runnings, repo, h);
    hide Compare, Linear, Uniform, Truthful, OneRepository, Evaluate, CandidatesOf, RequiredOf, Highest, Probes, Unread, FirstContaining, Lowest;
    var r := RequiredLanded(settings, server, locations, failedAt, repo, h);
    SaysDeployed(settings, server, locations, failedAt, baselines, runnings, repo, h, builds);
    var q := ResolvesToVersion(server(repo.slug), h, repo, c, x);
    if builds[p] < x {
      BehindParent(h, x, q, builds[p]);
      UniformBelow(h, builds[p], q, r);
    }
  }

  lemma UniformBelow(h: seq<Landed>, b: nat, q: nat, r: nat)
    requires Uniform(h) && b < |h| && q < |h| && r < |h|
    requires Compare(h[b].version, h[q].version) < 0 && Compare(h[q].version, h[r].version) <= 0
    ensures Compare(h[b].version, h[r].version) < 0
  {
    UniformOrder(h[b].version, h[q].version, h[r].version);
  }

  lemma DeployedCanDecide(settings: Settings, server: string -> Answers, locations: seq<Frame>, failedAt: Option<int>,
                          baselines: seq<Option<Version>>, runnings: seq<Option<Version>>, repo: Repo, h: seq<Landed>)
    requires Observed(settings, server, locations, failedAt, repo, h)
    requires Evaluate(settings, server, locations, failedAt, baselines, runnings).verdict == FixDeployed
    ensures CanDecide(settings, server, locations, failedAt, baselines, repo)
    ensures Evaluate(settings, server, locations, failedAt, baselines, runnings).required
         == Some(RequiredOf(settings, server, locations, failedAt, repo).version)
  {
    hide Highest, Compare, Lowest, Linear, Uniform, Truthful, Probes, Changed, Candidates, Unread, MappedProbes;
  }

  // ---------------------------------------------------------------------
  // Where every edit of the version file is a bump
  // ---------------------------------------------------------------------

  /** The version strictly increases at each commit that touches the version file, by its name, and changes
      nowhere else; and every time can be read. */
  ghost predicate Bumping(h: seq<Landed>, repo: Repo) {
    && Basename(repo.versionFile) != "" && (forall i | 0 <= i < |h| :: h[i].readable)
    && (forall i | 0 < i < |h| ::
          if Bumped(h[i], repo) then Compare(h[i - 1].version, h[i].version) < 0 else h[i].version == h[i - 1].version)
  }

  /** Whatever landed before a bump holds a strictly lower version. */
  lemma BeforeBump(h: seq<Landed>, repo: Repo, i: nat, r: nat)
    requires Linear(h) && Uniform(h) && Bumping(h, repo) && i < r < |h| && Bumped(h[r], repo)
    ensures Compare(h[i].version, h[r].version) < 0
  {
    hide Compare;
    VersionsGrow(h, i, r - 1);
    UniformOrder(h[i].version, h[r - 1].version, h[r].version);
  }

  lemma TouchingVersionFile(paths: set<Path>, versionFile: Path)
    requires versionFile in paths && Basename(versionFile) != ""
    ensures TouchesVersionFile(paths, versionFile)
  {
  }

  /** The version a commit resolves to is then the version at a bump that is not older than the commit. */
  lemma ResolvesToBump(answers: Answers, h: seq<Landed>, repo: Repo, c: Commit, x: nat) returns (r: nat)
    requires Linear(h) && Bumping(h, repo) && Truthful(answers, h) && Lists(h, c, x)
    requires FirstContaining(answers, repo, c).In?
    ensures x <= r < |h| && Bumped(h[r], repo) && FirstContaining(answers, repo, c) == In(h[r].version)
  {
    hide Compare;
    var paths := answers.changed[c.id];
    if TouchesVersionFile(paths, repo.versionFile) {
      r := x;
    } else {
      var bumps := CommitsTouching(answers, repo.versionFile, c.timestamp).value;
      var oldest := bumps[|bumps| - 1];
      SinceMeaning(answers.commits[repo.versionFile], c.timestamp);
      assert oldest in bumps;
      r :| Lists(h, oldest, r) && repo.versionFile in h[r].touched;
      TouchingVersionFile(h[r].touched, repo.versionFile);
    }
  }

  /** Then FIX_DEPLOYED is right of whatever builds run. */
  lemma BumpsPutParentsBehind(settings: Settings, server: string -> Answers, locations: seq<Frame>, failedAt: Option<int>,
                              repo: Repo, h: seq<Landed>)
    requires Observed(settings, server, locations, failedAt, repo, h) && Bumping(h, repo)
    requires RequiredOf(settings, server, locations, failedAt, repo).AtVersion?
    ensures ParentsBehind(server(repo.slug), repo, CandidatesOf(settings, server, locations, failedAt), h,
                          RequiredOf(settings, server, locations, failedAt, repo).version)
  {
    hide Compare, Linear, Uniform, Truthful, OneRepository, Bumping, CandidatesOf, RequiredOf, Highest, FirstContaining, Bumped;
    var answers, candidates := server(repo.slug), CandidatesOf(settings, server, locations, failedAt);
    var r := RequiredLanded(settings, server, locations, failedAt, repo, h);
    forall c, x: nat | Resolved(answers, repo, candidates, h, c, x)
      ensures x == 0 || Compare(h[x - 1].version, h[r].version) < 0
    {
      if x > 0 {
        var q := ResolvesToBump(answers, h, repo, c, x);
        BeforeBump(h, repo, x - 1, q);
        UniformBelow(h, x - 1, q, r);
      }
    }
  }

  /** The version file's list is the whole list of bumps, newest first, and the change sets of the
      history are complete. */
  ghost predicate CompleteBumps(answers: Answers, h: seq<Landed>, repo: Repo) {
    && repo.versionFile in answers.commits && NewestFirst(answers.commits[repo.versionFile])
    && (forall x | 0 <= x < |h| && Bumped(h[x], repo) :: AsListed(h[x]) in answers.commits[repo.versionFile])
    && (forall x | 0 <= x < |h| && h[x].id in answers.changed :: answers.changed[h[x].id] == h[x].touched)
  }

  predicate NewestFirst(commits: seq<Commit>) {
    forall i, j | 0 <= i < j < |commits| :: NotOlder(commits[i], commits[j])
  }

  predicate NotOlder(c: Commit, d: Commit) {
    c.timestamp.Some? && d.timestamp.Some? && c.timestamp.value >= d.timestamp.value
  }

  lemma TailNewestFirst(commits: seq<Commit>)
    requires NewestFirst(commits) && commits != []
    ensures NewestFirst(commits[1..])
  {
    var tail := commits[1..];
    forall i, j | 0 <= i < j < |tail|
      ensures NotOlder(tail[i], tail[j])
    {
      assert NotOlder(commits[i + 1], commits[j + 1]);
    }
  }

  lemma {:induction false} SinceKeepsOrder(commits: seq<Commit>, since: Option<int>)
    requires NewestFirst(commits)
    ensures NewestFirst(Since(commits, since))
  {
    if commits != [] {
      TailNewestFirst(commits);
      SinceKeepsOrder(commits[1..], since);
      SinceMeaning(commits[1..], since);
      assert forall c | c in commits[1..] :: exists j :: 0 < j < |commits| && commits[j] == c;
      var rest := Since(commits[1..], since);
      assert forall k | 0 <= k < |rest| :: rest[k] in commits[1..];
    }
  }

  lemma OldestIsLast(commits: seq<Commit>, c: Commit)
    requires NewestFirst(commits) && c in commits && c.timestamp.Some?
    ensures var last := commits[|commits| - 1];
      last == c || (last.timestamp.Some? && last.timestamp.value <= c.timestamp.value)
  {
    var k :| 0 <= k < |commits| && commits[k] == c;
  }

  /** With the whole list of bumps, a commit resolves to the first bump that is not older than it. */
  lemma ResolvesToFirstBump(answers: Answers, h: seq<Landed>, repo: Repo, c: Commit, x: nat, b: nat) returns (r: nat)
    requires Linear(h) && Bumping(h, repo) && Truthful(answers, h) && CompleteBumps(answers, h, repo) && Lists(h, c, x)
    requires FirstContaining(answers, repo, c).In?
    requires x <= b < |h| && Bumped(h[b], repo)
    ensures x <= r <= b && FirstContaining(answers, repo, c) == In(h[r].version)
  {
    hide Compare;
    if TouchesVersionFile(answers.changed[c.id], repo.versionFile) {
      r := x;
    } else {
      var listed := answers.commits[repo.versionFile];
      var bumps := Since(listed, c.timestamp);
      var oldest := bumps[|bumps| - 1];
      SinceMeaning(listed, c.timestamp);
      SinceKeepsOrder(listed, c.timestamp);
      assert h[x].time <= h[b].time;
      assert AsListed(h[b]) in bumps;
      OldestIsLast(bumps, AsListed(h[b]));
      assert oldest in bumps;
      r :| Lists(h, oldest, r) && repo.versionFile in h[r].touched;
    }
  }

  ghost function Bumps(h: seq<Landed>, repo: Repo): set<nat> { set b: nat | b < |h| && Bumped(h[b], repo) }

  /** With the whole list of bumps, the verdict is right of all builds that are cut at bumps. */
  lemma BumpBuildsAreExact(settings: Settings, server: string -> Answers, locations: seq<Frame>, failedAt: Option<int>,
                           baselines: seq<Option<Version>>, runnings: seq<Option<Version>>, repo: Repo, h: seq<Landed>, builds: seq<nat>)
    requires Observed(settings, server, locations, failedAt, repo, h) && Bumping(h, repo) && CompleteBumps(server(repo.slug), h, repo)
    requires CanDecide(settings, server, locations, failedAt, baselines, repo)
    requires Running(runnings, builds, h) && CutFrom(builds, Bumps(h, repo))
    ensures Right(settings, server, locations, failedAt, baselines, runnings, repo, h, builds)
  {
    BumpsSeparate(settings, server, locations, failedAt, repo, h);
    hide *;
    RightExactlyWhenSeparated(settings, server, locations, failedAt, baselines, repo, h, Bumps(h, repo));
  }

  lemma BumpsSeparate(settings: Settings, server: string -> Answers, locations: seq<Frame>, failedAt: Option<int>,
                      repo: Repo, h: seq<Landed>)
    requires Observed(settings, server, locations, failedAt, repo, h) && Bumping(h, repo) && CompleteBumps(server(repo.slug), h, repo)
    requires RequiredOf(settings, server, locations, failedAt, repo).AtVersion?
    ensures Separates(server(repo.slug), repo, CandidatesOf(settings, server, locations, failedAt), h,
                      RequiredOf(settings, server, locations, failedAt, repo).version, Bumps(h, repo))
  {
    BumpsPutParentsBehind(settings, server, locations, failedAt, repo, h);
    hide Compare, Linear, Uniform, Truthful, OneRepository, Bumping, CompleteBumps, CandidatesOf, RequiredOf, Highest, FirstContaining, ChangedProbes, HasAll, ParentsBehind;
    var r := RequiredLanded(settings, server, locations, failedAt, repo, h);
    var d, y := RequiredBy(settings, server, locations, failedAt, repo, h);
    forall b | b in Bumps(h, repo) && b < |h|
      ensures Compare(h[b].version, h[r].version) >= 0
        <==> HasAll(server(repo.slug), repo, CandidatesOf(settings, server, locations, failedAt), h, b)
    {
      BumpSeparates(server(repo.slug), repo, CandidatesOf(settings, server, locations, failedAt), h, r, d, y, b);
    }
  }

  lemma BumpSeparates(answers: Answers, repo: Repo, candidates: seq<Commit>, h: seq<Landed>, r: nat, d: Commit, y: nat, b: nat)
    requires Linear(h) && Uniform(h) && Bumping(h, repo) && Truthful(answers, h) && CompleteBumps(answers, h, repo)
    requires r < |h| && ParentsBehind(answers, repo, candidates, h, h[r].version)
    requires Resolved(answers, repo, candidates, h, d, y) && FirstContaining(answers, repo, d) == In(h[r].version)
    requires b < |h| && Bumped(h[b], repo)
    ensures Compare(h[b].version, h[r].version) >= 0 <==> HasAll(answers, repo, candidates, h, b)
  {
    hide Compare, Linear, Uniform, Truthful, Bumping, CompleteBumps, FirstContaining, Bumped, ParentsBehind;
    if HasAll(answers, repo, candidates, h, b) {
      var q := ResolvesToFirstBump(answers, h, repo, d, y, b);
      CompareAntisymmetric(h[q].version, h[q].version);
      Reaches(h, q, b, r);
    }
    if Compare(h[b].version, h[r].version) >= 0 {
      assert AllAtLeast(h, [b], h[r].version);
      ReachedHasAll(answers, repo, candidates, h, r, [b]);
      assert HasAll(answers, repo, candidates, h, [b][0]);
    }
  }

  /** A candidate that resolved to the required version. */
  lemma RequiredBy(settings: Settings, server: string -> Answers, locations: seq<Frame>, failedAt: Option<int>,
                   repo: Repo, h: seq<Landed>) returns (d: Commit, y: nat)
    requires Observed(settings, server, locations, failedAt, repo, h)
    requires RequiredOf(settings, server, locations, failedAt, repo).AtVersion?
    ensures Resolved(server(repo.slug), repo, CandidatesOf(settings, server, locations, failedAt), h, d, y)
    ensures FirstContaining(server(repo.slug), repo, d) == In(RequiredOf(settings, server, locations, failedAt, repo).version)
  {
    hide Highest, Compare, FirstContaining, Candidates, Linear, Uniform, Truthful, OneRepository;
    var answers := server(repo.slug);
    var candidates := CandidatesOf(settings, server, locations, failedAt);
    CandidateIds(settings, server, locations, failedAt, repo, h);
    HighestMeaning(answers, repo, candidates, {}, NothingResolved);
    var top := RequiredOf(settings, server, locations, failedAt, repo);
    d :| d in candidates && FirstContaining(answers, repo, d) == In(top.version);
    y := CandidateLanded(settings, server, locations, failedAt, repo, h, d);
  }

  // ---------------------------------------------------------------------
  // When NO_CHANGE is right
  // ---------------------------------------------------------------------

  /** A list of commits touching `path` that may be cut short, but only at its old end. */
  ghost predicate NewestListed(answers: Answers, h: seq<Landed>, path: Path) {
    path in answers.commits ==> forall x | 0 <= x < |h| && path in h[x].touched ::
      || AsListed(h[x]) in answers.commits[path]
      || exists c :: c in answers.commits[path] && c.timestamp.Some? && c.timestamp.value > h[x].time
  }

  /** NO_CHANGE says of every mapped file, in the repository its path was looked up in, that every commit
      that touches it landed before the packet failed. */
  lemma NoChangeIsSound(settings: Settings, server: string -> Answers, locations: seq<Frame>, failedAt: Option<int>,
                        baselines: seq<Option<Version>>, runnings: seq<Option<Version>>, f: Frame, h: seq<Landed>, x: nat)
    requires Evaluate(settings, server, locations, failedAt, baselines, runnings).verdict == NoChange
    requires f in FramesChecked(settings, locations) && f.Mapped?
    requires var asked := AskedRepo(FramesChecked(settings, locations), f.path);
      asked.Some? ==> NewestListed(server(asked.value.slug), h, f.path)
    requires x < |h| && f.path in h[x].touched
    ensures AskedRepo(FramesChecked(settings, locations), f.path).Some?
    ensures failedAt.Some? && h[x].time < failedAt.value
  {
    hide Lowest, Highest, Compare;
    var frames := FramesChecked(settings, locations);
    NothingSince(settings, server, locations, failedAt, baselines, runnings, f);
    var answers := server(AskedRepo(frames, f.path).value.slug);
    SinceMeaning(answers.commits[f.path], failedAt);
    assert Since(answers.commits[f.path], failedAt) == [];
  }

  lemma {:induction false} MappedIsAsked(frames: seq<Frame>, f: Frame)
    requires f in frames && f.Mapped?
    ensures AskedRepo(frames, f.path).Some?
  {
    if !(frames[0].Mapped? && frames[0].path == f.path) {
      assert frames == [frames[0]] + frames[1..];
      MappedIsAsked(frames[1..], f);
    }
  }

  /** The lookup behind each mapped frame answered with nothing. */
  lemma NothingSince(settings: Settings, server: string -> Answers, locations: seq<Frame>, failedAt: Option<int>,
                     baselines: seq<Option<Version>>, runnings: seq<Option<Version>>, f: Frame)
    requires Evaluate(settings, server, locations, failedAt, baselines, runnings).verdict == NoChange
    requires f in FramesChecked(settings, locations) && f.Mapped?
    ensures var asked := AskedRepo(FramesChecked(settings, locations), f.path);
      asked.Some? && CommitsTouching(server(asked.value.slug), f.path, failedAt) == Some([])
  {
    hide Lowest, Highest, Compare;
    var frames := FramesChecked(settings, locations);
    MappedIsAsked(frames, f);
    NoChangeExactly(settings, server, locations, failedAt, baselines, runnings);
    hide Evaluate, Since;
    var k :| 0 <= k < |frames| && frames[k] == f;
    assert Probes(server, frames, failedAt)[k] == ProbeOf(server, frames, f, failedAt);
  }

  /** Two checked frames on one path in two repositories. */
  predicate Twins(frames: seq<Frame>) {
    exists i, j | 0 <= i < |frames| && 0 <= j < |frames| ::
      frames[i].Mapped? && frames[j].Mapped? && frames[i].path == frames[j].path && frames[i].repo.slug != frames[j].repo.slug
  }

  predicate HasBlankPath(frames: seq<Frame>) { exists i | 0 <= i < |frames| :: frames[i].Mapped? && frames[i].path == "" }

  /** The frame's own repository lists nothing that touches it since the failure. */
  predicate Untouched(server: string -> Answers, f: Frame, since: Option<int>)
    requires f.Mapped?
  {
    CommitsTouching(server(f.repo.slug), f.path, since) == Some([])
  }

  function PathsOf(frames: seq<Frame>): set<Path> { set f | f in frames && f.Mapped? :: f.path }

  /** A server that has nothing to tell, except that `other` lists a commit on `path`. */
  function OneTells(frames: seq<Frame>, other: string, path: Path): string -> Answers {
    (slug: string) =>
      Answers(map p | p in PathsOf(frames) :: if slug == other && p == path then [Commit("c", None)] else [], map[], map[])
  }

  /** Of two frames on one path, one is in a repository that is not asked. */
  lemma SomeoneIsNotAsked(frames: seq<Frame>) returns (f: Frame)
    requires Twins(frames)
    ensures f in frames && f.Mapped? && AskedRepo(frames, f.path).Some? && AskedRepo(frames, f.path).value.slug != f.repo.slug
  {
    var i, j :| 0 <= i < |frames| && 0 <= j < |frames| && frames[i].Mapped? && frames[j].Mapped?
                && frames[i].path == frames[j].path && frames[i].repo.slug != frames[j].repo.slug;
    MappedIsAsked(frames, frames[i]);
    f := if AskedRepo(frames, frames[i].path).value.slug == frames[i].repo.slug then frames[j] else frames[i];
  }

  lemma AskedIsOwn(frames: seq<Frame>, f: Frame)
    requires !Twins(frames) && f in frames && f.Mapped?
    ensures AskedRepo(frames, f.path).Some? && AskedRepo(frames, f.path).value.slug == f.repo.slug
  {
    MappedIsAsked(frames, f);
    AskedIsAFrame(frames, f.path);
    var asked := Frame.Mapped(AskedRepo(frames, f.path).value, f.path);
    var i :| 0 <= i < |frames| && frames[i] == f;
    var j :| 0 <= j < |frames| && frames[j] == asked;
  }

  lemma OneTellsNothing(settings: Settings, locations: seq<Frame>, failedAt: Option<int>,
                        baselines: seq<Option<Version>>, runnings: seq<Option<Version>>, f: Frame)
    requires settings.enabled && settings.checkedClass && settings.configured && locations != []
    requires var frames := FramesChecked(settings, locations);
      && !HasBlankPath(frames) && f in frames && f.Mapped?
      && AskedRepo(frames, f.path).Some? && AskedRepo(frames, f.path).value.slug != f.repo.slug
    ensures var server := OneTells(FramesChecked(settings, locations), f.repo.slug, f.path);
      && Evaluate(settings, server, locations, failedAt, baselines, runnings).verdict == NoChange
      && !Untouched(server, f, failedAt)
  {
    hide Lowest, Highest, Compare, HasBlankPath;
    var frames := FramesChecked(settings, locations);
    var server := OneTells(frames, f.repo.slug, f.path);
    NoChangeExactly(settings, server, locations, failedAt, baselines, runnings);
    hide Evaluate;
    var probes := Probes(server, frames, failedAt);
    forall k | 0 <= k < |probes| && probes[k].Probe?
      ensures probes[k].commits == Some([])
    {
      AnsweredWithNothing(frames, f, failedAt, k);
    }
    var i :| 0 <= i < |frames| && frames[i] == f;
    assert probes[i].Probe?;
    assert f.path in PathsOf(frames) && f.path != "" by { FramePath(frames, i); }
    assert Since([Commit("c", None)], failedAt) == [Commit("c", None)] + Since([], failedAt);
  }

  lemma FramePath(frames: seq<Frame>, k: nat)
    requires k < |frames| && frames[k].Mapped? && !HasBlankPath(frames)
    ensures frames[k].path in PathsOf(frames) && frames[k].path != ""
  {
    assert frames[k] in frames;
  }

  lemma AnsweredWithNothing(frames: seq<Frame>, f: Frame, since: Option<int>, k: nat)
    requires !HasBlankPath(frames) && k < |frames| && f.Mapped? && AskedRepo(frames, f.path).Some?
    requires AskedRepo(frames, f.path).value.slug != f.repo.slug
    ensures var probe := ProbeOf(OneTells(frames, f.repo.slug, f.path), frames, frames[k], since);
      probe.Probe? ==> probe.commits == Some([])
  {
    if frames[k].Mapped? {
      FramePath(frames, k);
      hide HasBlankPath, AskedRepo, PathsOf;
      assert Since([], since) == [];
    }
  }

  /** With the check on: NO_CHANGE, whatever the repositories hold, implies that the own repository of every
      mapped frame lists nothing since the failure, if and only if no two checked frames share a path and
      differ in their repository -- or one has no path at all, when NO_CHANGE is never said. */
  lemma NoChangeIsRightExactly(settings: Settings, locations: seq<Frame>, failedAt: Option<int>,
                               baselines: seq<Option<Version>>, runnings: seq<Option<Version>>)
    requires settings.enabled && settings.checkedClass && settings.configured && locations != []
    ensures var frames := FramesChecked(settings, locations);
      (forall server: string -> Answers, f | Evaluate(settings, server, locations, failedAt, baselines, runnings).verdict == NoChange
         && f in frames && f.Mapped? :: Untouched(server, f, failedAt))
      <==> !Twins(frames) || HasBlankPath(frames)
  {
    hide Evaluate, Untouched, Lowest, Highest, Compare, Twins, HasBlankPath, FramesChecked;
    var frames := FramesChecked(settings, locations);
    if !Twins(frames) || HasBlankPath(frames) {
      forall server: string -> Answers, f | Evaluate(settings, server, locations, failedAt, baselines, runnings).verdict == NoChange
          && f in frames && f.Mapped?
        ensures Untouched(server, f, failedAt)
      {
        OwnIsUntouched(settings, server, locations, failedAt, baselines, runnings, f);
      }
    } else {
      var f := SomeoneIsNotAsked(frames);
      OneTellsNothing(settings, locations, failedAt, baselines, runnings, f);
    }
  }

  lemma OwnIsUntouched(settings: Settings, server: string -> Answers, locations: seq<Frame>, failedAt: Option<int>,
                       baselines: seq<Option<Version>>, runnings: seq<Option<Version>>, f: Frame)
    requires Evaluate(settings, server, locations, failedAt, baselines, runnings).verdict == NoChange
    requires var frames := FramesChecked(settings, locations);
      f in frames && f.Mapped? && (!Twins(frames) || HasBlankPath(frames))
    ensures Untouched(server, f, failedAt)
  {
    var frames := FramesChecked(settings, locations);
    if HasBlankPath(frames) {
      var i :| 0 <= i < |frames| && frames[i].Mapped? && frames[i].path == "";
      hide Evaluate;
      NothingSince(settings, server, locations, failedAt, baselines, runnings, frames[i]);
    } else {
      hide Evaluate, Twins;
      AskedIsOwn(frames, f);
      NothingSince(settings, server, locations, failedAt, baselines, runnings, f);
    }
  }

  /** NO_CHANGE exactly when the check is on, some frame is mapped, and every lookup answered with nothing. */
  lemma NoChangeExactly(settings: Settings, server: string -> Answers, locations: seq<Frame>, failedAt: Option<int>,
                        baselines: seq<Option<Version>>, runnings: seq<Option<Version>>)
    ensures var probes := Probes(server, FramesChecked(settings, locations), failedAt);
      Evaluate(settings, server, locations, failedAt, baselines, runnings).verdict == NoChange <==>
        && settings.enabled && settings.checkedClass && settings.configured && locations != []
        && (exists k | 0 <= k < |probes| :: probes[k].Probe?)
        && (forall k | 0 <= k < |probes| :: probes[k].Probe? ==> probes[k].commits == Some([]))
  {
    hide Lowest, Highest, Compare, Probes, Candidates, OneRepository;
    var probes := Probes(server, FramesChecked(settings, locations), failedAt);
    SomeMapped(probes);
    NoneChanged(probes);
    hide MappedProbes, Changed, Unread;
  }

  lemma {:induction false} SomeMapped(probes: seq<Probe>)
    ensures MappedProbes(probes) != [] <==> exists k | 0 <= k < |probes| :: probes[k].Probe?
  {
    if probes != [] {
      SomeMapped(probes[1..]);
      if k :| 0 < k < |probes| && probes[k].Probe? {
        assert probes[1..][k - 1].Probe?;
      }
    }
  }

  lemma NoneChanged(probes: seq<Probe>)
    ensures Changed(probes) == [] && !Unread(probes) <==>
      forall k | 0 <= k < |probes| :: probes[k].Probe? ==> probes[k].commits == Some([])
  {
    if Changed(probes) == [] && !Unread(probes) {
      forall k | 0 <= k < |probes| && probes[k].Probe?
        ensures probes[k].commits == Some([])
      {
        ChangedMeaning(probes, probes[k]);
      }
    } else if Changed(probes) != [] {
      ChangedMeaning(probes, Changed(probes)[0]);
    }
  }
}
