/** Every verdict of the replay precheck in terms of the frames and of what the repositories answer. */
module PrecheckVerdicts {
  import opened Options
  import opened Versions
  import opened CodeCheck
  import opened Deployment

  // ---------------------------------------------------------------------
  // What a commit resolves to
  // ---------------------------------------------------------------------

  /** Not before the commit, as far as can be told. */
  predicate MayFollow(b: Commit, c: Commit) {
    c.timestamp.None? || b.timestamp.None? || b.timestamp.value >= c.timestamp.value
  }

  lemma {:induction false} SinceLast(commits: seq<Commit>, c: Commit)
    ensures var later := Since(commits, c.timestamp);
      && (later == [] <==> forall k | 0 <= k < |commits| :: !MayFollow(commits[k], c))
      && (later != [] ==> exists k | 0 <= k < |commits| ::
            commits[k] == later[|later| - 1] && MayFollow(commits[k], c) && forall j | k < j < |commits| :: !MayFollow(commits[j], c))
  {
    if commits != [] {
      var rest := commits[1..];
      SinceLast(rest, c);
      var later := Since(rest, c.timestamp);
      if later != [] {
        var k :| 0 <= k < |rest| && rest[k] == later[|later| - 1] && MayFollow(rest[k], c)
                 && forall j | k < j < |rest| :: !MayFollow(rest[j], c);
        assert commits[k + 1] == rest[k];
        assert forall j | k + 1 < j < |commits| :: commits[j] == rest[j - 1];
      } else {
        assert forall j | 0 < j < |commits| :: commits[j] == rest[j - 1];
      }
    }
  }

  /** The change set is read and leaves the version file alone, and the list of those that touch it is read. */
  predicate LooksForward(answers: Answers, repo: Repo, c: Commit) {
    && c.id != "" && c.id in answers.changed && !TouchesVersionFile(answers.changed[c.id], repo.versionFile)
    && repo.versionFile != "" && repo.versionFile in answers.commits
  }

  /** Never cut: no commit that may follow it touches the version file. */
  ghost predicate NothingCutSince(answers: Answers, repo: Repo, c: Commit) {
    LooksForward(answers, repo, c) && forall b | b in answers.commits[repo.versionFile] :: !MayFollow(b, c)
  }

  /** Read at the commit itself, which touches the version file, or at the oldest listed one that may follow it. */
  ghost predicate ReadsVersion(answers: Answers, repo: Repo, c: Commit, v: Version) {
    || (&& c.id != "" && c.id in answers.changed && TouchesVersionFile(answers.changed[c.id], repo.versionFile)
        && c.id in answers.version && v == answers.version[c.id])
    || (&& LooksForward(answers, repo, c)
        && exists k | 0 <= k < |answers.commits[repo.versionFile]| ::
             && MayFollow(answers.commits[repo.versionFile][k], c)
             && (forall j | k < j < |answers.commits[repo.versionFile]| :: !MayFollow(answers.commits[repo.versionFile][j], c))
             && answers.commits[repo.versionFile][k].id in answers.version
             && v == answers.version[answers.commits[repo.versionFile][k].id])
  }

  lemma ResolutionExactly(answers: Answers, repo: Repo, c: Commit, v: Version)
    ensures FirstContaining(answers, repo, c) == NeverCut <==> NothingCutSince(answers, repo, c)
    ensures FirstContaining(answers, repo, c) == In(v) <==> ReadsVersion(answers, repo, c, v)
  {
    if LooksForward(answers, repo, c) {
      var listed := answers.commits[repo.versionFile];
      SinceLast(listed, c);
      hide Since, TouchesVersionFile;
    }
  }

  // ---------------------------------------------------------------------
  // The candidates, each once
  // ---------------------------------------------------------------------

  /** `c` is the first with its id, and the id has not been seen before. */
  ghost predicate FirstNamed(commits: seq<Commit>, seen: set<string>, c: Commit) {
    c.id !in seen && exists k | 0 <= k < |commits| :: commits[k] == c && forall j | 0 <= j < k :: commits[j].id != c.id
  }

  lemma FirstNamedRest(commits: seq<Commit>, seen: set<string>, c: Commit)
    requires commits != []
    ensures FirstNamed(commits, seen, c) <==>
      if commits[0].id in seen then FirstNamed(commits[1..], seen, c)
      else c == commits[0] || FirstNamed(commits[1..], seen + {commits[0].id}, c)
  {
    var rest := commits[1..];
    if k :| 0 <= k < |commits| && commits[k] == c && forall j | 0 <= j < k :: commits[j].id != c.id {
      if k > 0 {
        assert rest[k - 1] == c && commits[0].id != c.id;
        assert forall j | 0 <= j < k - 1 :: rest[j] == commits[j + 1];
      }
    }
    if k :| 0 <= k < |rest| && rest[k] == c && forall j | 0 <= j < k :: rest[j].id != c.id {
      assert commits[k + 1] == c;
      if commits[0].id != c.id {
        assert forall j | 0 < j < k + 1 :: commits[j] == rest[j - 1];
      }
    }
  }

  /** What the loop over the candidates comes to. */
  ghost predicate Sums(answers: Answers, repo: Repo, commits: seq<Commit>, seen: set<string>, start: Required, top: Required) {
    && (top.AtVersion? <==> start.AtVersion? || exists c :: FirstNamed(commits, seen, c) && FirstContaining(answers, repo, c).In?)
    && (!top.AtVersion? ==> (top.NotCut? <==> start.NotCut? || exists c :: FirstNamed(commits, seen, c) && FirstContaining(answers, repo, c) == NeverCut))
    && (top.AtVersion? ==> top == start || exists c :: FirstNamed(commits, seen, c) && FirstContaining(answers, repo, c) == In(top.version))
    && NotBelow(top, start)
    && (forall c | FirstNamed(commits, seen, c) && FirstContaining(answers, repo, c).In? ::
          top.AtVersion? && Compare(FirstContaining(answers, repo, c).version, top.version) <= 0)
  }

  lemma {:induction false} HighestSums(answers: Answers, repo: Repo, commits: seq<Commit>, seen: set<string>, start: Required)
    ensures Sums(answers, repo, commits, seen, start, Highest(answers, repo, commits, seen, start))
    decreases |commits|
  {
    if commits != [] {
      forall c {
        FirstNamedRest(commits, seen, c);
      }
      hide Compare, FirstContaining, FirstNamed;
      var c, rest := commits[0], commits[1..];
      if c.id in seen {
        HighestSums(answers, repo, rest, seen, start);
      } else {
        var next := Require(start, FirstContaining(answers, repo, c));
        RequireRaises(start, FirstContaining(answers, repo, c));
        HighestSums(answers, repo, rest, seen + {c.id}, next);
        SumsJoin(answers, repo, commits, seen, start, Highest(answers, repo, rest, seen + {c.id}, next));
      }
    }
  }

  lemma SumsJoin(answers: Answers, repo: Repo, commits: seq<Commit>, seen: set<string>, start: Required, top: Required)
    requires commits != [] && commits[0].id !in seen
    requires var next := Require(start, FirstContaining(answers, repo, commits[0]));
      && NotBelow(next, start) && Sums(answers, repo, commits[1..], seen + {commits[0].id}, next, top)
      && (FirstContaining(answers, repo, commits[0]).In? ==>
            next.AtVersion? && Compare(FirstContaining(answers, repo, commits[0]).version, next.version) <= 0)
    requires forall c :: FirstNamed(commits, seen, c) <==> c == commits[0] || FirstNamed(commits[1..], seen + {commits[0].id}, c)
    ensures Sums(answers, repo, commits, seen, start, top)
  {
    hide Compare, FirstContaining, FirstNamed;
    var next := Require(start, FirstContaining(answers, repo, commits[0]));
    NotBelowTransitive(top, next, start);
    KeepsCovering(top, next, answers, repo, commits[0]);
  }

  lemma {:induction false} CandidatesAre(probes: seq<Probe>, max: nat, c: Commit)
    ensures c in Candidates(probes, max) <==>
      exists p | p in probes :: p.Probe? && p.commits.Some? && c in p.commits.value[..if |p.commits.value| < max then |p.commits.value| else max]
  {
    if probes != [] {
      CandidatesAre(probes[1..], max, c);
      assert probes == [probes[0]] + probes[1..];
    }
  }

  // ---------------------------------------------------------------------
  // The verdict, case by case
  // ---------------------------------------------------------------------

  ghost predicate IsOn(settings: Settings, locations: seq<Frame>) {
    settings.enabled && settings.checkedClass && settings.configured && locations != []
  }

  /** What was found out about a frame's file. */
  function LookedUp(server: string -> Answers, frames: seq<Frame>, f: Frame, since: Option<int>): Option<seq<Commit>> {
    if f.Unmapped? || AskedRepo(frames, f.path).None? then None
    else CommitsTouching(server(AskedRepo(frames, f.path).value.slug), f.path, since)
  }

  /** Some frame is mapped, and every mapped one was read. */
  ghost predicate PathIsRead(server: string -> Answers, frames: seq<Frame>, since: Option<int>) {
    (exists f :: f in frames && f.Mapped?) && forall f | f in frames && f.Mapped? :: LookedUp(server, frames, f, since).Some?
  }

  /** Frame `k` is in a file that has changed. */
  ghost predicate ChangedAt(server: string -> Answers, frames: seq<Frame>, since: Option<int>, k: nat) {
    && k < |frames| && frames[k].Mapped?
    && LookedUp(server, frames, frames[k], since).Some? && LookedUp(server, frames, frames[k], since).value != []
  }

  ghost predicate Unchanged(server: string -> Answers, frames: seq<Frame>, since: Option<int>) {
    forall k: nat :: !ChangedAt(server, frames, since, k)
  }

  /** The first changed frame, and all changes are in its repository. */
  ghost predicate ChangedIn(server: string -> Answers, frames: seq<Frame>, since: Option<int>, repo: Repo) {
    exists k: nat :: && ChangedAt(server, frames, since, k) && frames[k].repo == repo
                && (forall j: nat | j < k :: !ChangedAt(server, frames, since, j))
                && (forall j: nat | ChangedAt(server, frames, since, j) :: frames[j].repo.slug == repo.slug)
  }

  lemma {:induction false} ChangedKeepsOrder(probes: seq<Probe>)
    ensures Changed(probes) != [] ==> exists k | 0 <= k < |probes| ::
      && probes[k] == Changed(probes)[0] && probes[k].Probe? && probes[k].commits.Some? && probes[k].commits.value != []
      && forall j | 0 <= j < k :: !(probes[j].Probe? && probes[j].commits.Some? && probes[j].commits.value != [])
  {
    if probes != [] && !(probes[0].Probe? && probes[0].commits.Some? && probes[0].commits.value != []) {
      var rest := probes[1..];
      ChangedKeepsOrder(rest);
      if Changed(rest) != [] {
        var k :| 0 <= k < |rest| && rest[k] == Changed(rest)[0] && rest[k].Probe? && rest[k].commits.Some? && rest[k].commits.value != []
                 && forall j | 0 <= j < k :: !(rest[j].Probe? && rest[j].commits.Some? && rest[j].commits.value != []);
        assert probes[k + 1] == rest[k];
        assert forall j | 0 < j < k + 1 :: probes[j] == rest[j - 1];
      }
    }
  }

  lemma ProbeTells(server: string -> Answers, frames: seq<Frame>, since: Option<int>, k: nat)
    requires k < |frames|
    ensures var probe := Probes(server, frames, since)[k];
      && (probe.Probe? <==> frames[k].Mapped?)
      && (probe.Probe? ==> probe.repo == frames[k].repo && probe.commits == LookedUp(server, frames, frames[k], since))
      && (ChangedAt(server, frames, since, k) <==> probe.Probe? && probe.commits.Some? && probe.commits.value != [])
  {
    if frames[k].Mapped? {
      MappedIsAsked(frames, frames[k]);
    }
  }

  lemma PathReadExactly(server: string -> Answers, frames: seq<Frame>, since: Option<int>)
    ensures var probes := Probes(server, frames, since);
      MappedProbes(probes) != [] && !Unread(probes) <==> PathIsRead(server, frames, since)
  {
    var probes := Probes(server, frames, since);
    SomeMapped(probes);
    forall k | 0 <= k < |frames|
      ensures (probes[k].Probe? <==> frames[k].Mapped?)
      ensures probes[k].Probe? ==> probes[k].commits == LookedUp(server, frames, frames[k], since)
    {
      ProbeTells(server, frames, since, k);
    }
    hide Probes, LookedUp, MappedProbes;
    if MappedProbes(probes) != [] {
      var k :| 0 <= k < |probes| && probes[k].Probe?;
      assert frames[k] in frames;
    }
    if PathIsRead(server, frames, since) {
      var f :| f in frames && f.Mapped?;
      var k :| 0 <= k < |frames| && frames[k] == f;
      assert probes[k].Probe?;
    }
  }

  lemma UnchangedExactly(server: string -> Answers, frames: seq<Frame>, since: Option<int>)
    ensures Changed(Probes(server, frames, since)) == [] <==> Unchanged(server, frames, since)
  {
    var probes := Probes(server, frames, since);
    forall k | 0 <= k < |frames|
      ensures ChangedAt(server, frames, since, k) <==> probes[k] in Changed(probes)
    {
      ProbeTells(server, frames, since, k);
      ChangedMeaning(probes, probes[k]);
    }
    ChangedKeepsOrder(probes);
    if Changed(probes) != [] {
      var k :| 0 <= k < |probes| && probes[k] == Changed(probes)[0];
      assert ChangedAt(server, frames, since, k);
    }
  }

  /** The changed probes are in one repository, that of the first. */
  lemma ChangedInExactly(server: string -> Answers, frames: seq<Frame>, since: Option<int>, repo: Repo)
    ensures var changed := Changed(Probes(server, frames, since));
      changed != [] && OneRepository(changed) && changed[0].Probe? && changed[0].repo == repo <==> ChangedIn(server, frames, since, repo)
  {
    var probes := Probes(server, frames, since);
    var changed := Changed(probes);
    forall k | 0 <= k < |frames|
      ensures ChangedAt(server, frames, since, k) <==> probes[k] in changed
      ensures probes[k].Probe? <==> frames[k].Mapped?
      ensures probes[k].Probe? ==> probes[k].repo == frames[k].repo
      ensures ChangedAt(server, frames, since, k) <==> probes[k].Probe? && probes[k].commits.Some? && probes[k].commits.value != []
    {
      ProbeTells(server, frames, since, k);
      ChangedMeaning(probes, probes[k]);
    }
    ChangedKeepsOrder(probes);
    forall p | p in changed
      ensures exists k | 0 <= k < |frames| :: probes[k] == p
    {
      ChangedMeaning(probes, p);
    }
    hide Probes, Changed;
    assert changed == [] ==> Unchanged(server, frames, since);
    hide ChangedAt;
    if changed != [] {
      var k :| 0 <= k < |probes| && probes[k] == changed[0]
               && forall j | 0 <= j < k :: !(probes[j].Probe? && probes[j].commits.Some? && probes[j].commits.value != []);
      FirstChanged(server, frames, since, probes, changed, k, repo);
    }
  }

  lemma FirstChanged(server: string -> Answers, frames: seq<Frame>, since: Option<int>, probes: seq<Probe>, changed: seq<Probe>,
                     k: nat, repo: Repo)
    requires |probes| == |frames| && k < |probes| && changed != [] && probes[k] == changed[0]
    requires forall j: nat | j < k :: !ChangedAt(server, frames, since, j)
    requires forall j | 0 <= j < |frames| :: ChangedAt(server, frames, since, j) <==> probes[j] in changed
    requires forall j | 0 <= j < |frames| && probes[j] in changed :: probes[j].Probe? && frames[j].Mapped? && probes[j].repo == frames[j].repo
    requires forall p | p in changed :: exists j | 0 <= j < |frames| :: probes[j] == p
    ensures OneRepository(changed) && changed[0].Probe? && changed[0].repo == repo <==> ChangedIn(server, frames, since, repo)
  {
    assert changed[0] in changed && ChangedAt(server, frames, since, k);
    if OneRepository(changed) && changed[0].repo == repo {
      forall j: nat | ChangedAt(server, frames, since, j)
        ensures frames[j].repo.slug == repo.slug
      {
        ChangedAtBound(server, frames, since, j);
        SameSlug(changed, probes[j], changed[0]);
      }
    }
    if ChangedIn(server, frames, since, repo) {
      var i: nat :| ChangedAt(server, frames, since, i) && frames[i].repo == repo && (forall j: nat | j < i :: !ChangedAt(server, frames, since, j))
               && (forall j: nat | ChangedAt(server, frames, since, j) :: frames[j].repo.slug == repo.slug);
      ChangedAtBound(server, frames, since, i);
      assert i == k;
      forall p | p in changed
        ensures p.Probe? && p.repo.slug == repo.slug
      {
        var j :| 0 <= j < |frames| && probes[j] == p;
        assert ChangedAt(server, frames, since, j);
      }
      assert forall a | 0 <= a < |changed| :: changed[a] in changed;
    }
  }

  lemma ChangedAtBound(server: string -> Answers, frames: seq<Frame>, since: Option<int>, k: nat)
    requires ChangedAt(server, frames, since, k)
    ensures k < |frames|
  {
  }

  /** Some candidate resolves to `v`, and none to a higher version. */
  ghost predicate IsRequired(answers: Answers, repo: Repo, candidates: seq<Commit>, v: Version) {
    && (exists c :: FirstNamed(candidates, {}, c) && ReadsVersion(answers, repo, c, v))
    && (forall c, w | FirstNamed(candidates, {}, c) && ReadsVersion(answers, repo, c, w) :: Compare(w, v) <= 0)
  }

  ghost predicate SomeResolves(answers: Answers, repo: Repo, candidates: seq<Commit>) {
    exists c, v :: FirstNamed(candidates, {}, c) && ReadsVersion(answers, repo, c, v)
  }

  ghost predicate SomeNeverCut(answers: Answers, repo: Repo, candidates: seq<Commit>) {
    exists c :: FirstNamed(candidates, {}, c) && NothingCutSince(answers, repo, c)
  }

  /** The failing and the running builds against the version required. */
  function Weighed(v: Version, baseline: Option<Version>, running: Option<Version>): Verdict {
    if running.None? || (baseline.Some? && Compare(v, baseline.value) <= 0) then Unknown
    else if Compare(running.value, v) < 0 then NotDeployed
    else if baseline.None? then Unknown
    else FixDeployed
  }

  /** The answer on versions, once all changes are in one repository. */
  ghost predicate OnVersions(check: Check, answers: Answers, repo: Repo, candidates: seq<Commit>,
                             baseline: Option<Version>, running: Option<Version>)
  {
    if SomeResolves(answers, repo, candidates)
    then exists v :: IsRequired(answers, repo, candidates, v) && check == Check(Weighed(v, baseline, running), Some(v))
    else check == Check(if SomeNeverCut(answers, repo, candidates) then NotDeployed else Unknown, None)
  }

  lemma HighestTells(answers: Answers, repo: Repo, candidates: seq<Commit>)
    ensures var top := Highest(answers, repo, candidates, {}, NothingResolved);
      && (top.AtVersion? <==> SomeResolves(answers, repo, candidates))
      && (top.AtVersion? ==> IsRequired(answers, repo, candidates, top.version))
      && (!top.AtVersion? ==> (top.NotCut? <==> SomeNeverCut(answers, repo, candidates)))
  {
    HighestSums(answers, repo, candidates, {}, NothingResolved);
    forall c
      ensures FirstContaining(answers, repo, c) == NeverCut <==> NothingCutSince(answers, repo, c)
    {
      ResolutionExactly(answers, repo, c, Version([], false, None));
    }
    forall c, v
      ensures FirstContaining(answers, repo, c) == In(v) <==> ReadsVersion(answers, repo, c, v)
    {
      ResolutionExactly(answers, repo, c, v);
    }
    hide Highest, Compare, FirstContaining, NothingCutSince, ReadsVersion, FirstNamed;
    var top := Highest(answers, repo, candidates, {}, NothingResolved);
    if top.AtVersion? {
      var c :| FirstNamed(candidates, {}, c) && FirstContaining(answers, repo, c) == In(top.version);
      assert ReadsVersion(answers, repo, c, top.version);
    }
    if c, v :| FirstNamed(candidates, {}, c) && ReadsVersion(answers, repo, c, v) {
      assert FirstContaining(answers, repo, c) == In(v);
    }
  }

  lemma ComparedOnVersions(answers: Answers, repo: Repo, candidates: seq<Commit>, baseline: Option<Version>, running: Option<Version>)
    ensures OnVersions(Compared(Highest(answers, repo, candidates, {}, NothingResolved), baseline, running),
                       answers, repo, candidates, baseline, running)
  {
    HighestTells(answers, repo, candidates);
    hide Highest, Compare, SomeResolves, SomeNeverCut, IsRequired;
    var top := Highest(answers, repo, candidates, {}, NothingResolved);
    if top.AtVersion? && baseline.Some? {
      CompareAntisymmetric(top.version, baseline.value);
    }
  }

  /** The whole verdict. The check is off, or the call path was not read: UNKNOWN. Nothing changed: NO_CHANGE.
      Changes in several repositories: UNKNOWN. Otherwise what the candidates resolve to decides. */
  lemma VerdictByCase(settings: Settings, server: string -> Answers, locations: seq<Frame>, failedAt: Option<int>,
                      baselines: seq<Option<Version>>, runnings: seq<Option<Version>>, repo: Repo)
    ensures var frames := FramesChecked(settings, locations);
      var check := Evaluate(settings, server, locations, failedAt, baselines, runnings);
      && (!IsOn(settings, locations) || !PathIsRead(server, frames, failedAt) ==> check == Check(Unknown, None))
      && (IsOn(settings, locations) && PathIsRead(server, frames, failedAt) ==>
            && (Unchanged(server, frames, failedAt) ==> check == Check(NoChange, None))
            && (!Unchanged(server, frames, failedAt) && (forall r :: !ChangedIn(server, frames, failedAt, r)) ==> check == Check(Unknown, None))
            && (ChangedIn(server, frames, failedAt, repo) ==>
                  OnVersions(check, server(repo.slug), repo, CandidatesOf(settings, server, locations, failedAt),
                             Lowest(baselines), Lowest(runnings))))
  {
    hide Highest, Compared, Lowest, Probes, Changed, MappedProbes, Unread, Candidates, OneRepository, PathIsRead, Unchanged, ChangedIn, OnVersions;
    var frames := FramesChecked(settings, locations);
    var probes := Probes(server, frames, failedAt);
    PathReadExactly(server, frames, failedAt);
    UnchangedExactly(server, frames, failedAt);
    ChangedInExactly(server, frames, failedAt, repo);
    if Changed(probes) != [] && Changed(probes)[0].Probe? {
      ChangedInExactly(server, frames, failedAt, Changed(probes)[0].repo);
    }
    ComparedOnVersions(server(repo.slug), repo, CandidatesOf(settings, server, locations, failedAt), Lowest(baselines), Lowest(runnings));
  }

  /** The check is on, the call path was read, and all changes are in one repository. */
  ghost predicate Comparable(settings: Settings, server: string -> Answers, locations: seq<Frame>, failedAt: Option<int>, repo: Repo) {
    var frames := FramesChecked(settings, locations);
    IsOn(settings, locations) && PathIsRead(server, frames, failedAt) && ChangedIn(server, frames, failedAt, repo)
  }

  lemma ChangedIsNotUnchanged(server: string -> Answers, frames: seq<Frame>, since: Option<int>, repo: Repo)
    requires ChangedIn(server, frames, since, repo)
    ensures !Unchanged(server, frames, since)
  {
  }

  /** NOT_DEPLOYED without a version, exactly: no candidate resolves, and the change set of some candidate is
      read, leaves the version file alone, and nothing that may follow it touches that file. */
  lemma NeverCutExactly(settings: Settings, server: string -> Answers, locations: seq<Frame>, failedAt: Option<int>,
                        baselines: seq<Option<Version>>, runnings: seq<Option<Version>>)
    ensures Evaluate(settings, server, locations, failedAt, baselines, runnings) == Check(NotDeployed, None) <==>
      exists repo :: && Comparable(settings, server, locations, failedAt, repo)
                     && !SomeResolves(server(repo.slug), repo, CandidatesOf(settings, server, locations, failedAt))
                     && SomeNeverCut(server(repo.slug), repo, CandidatesOf(settings, server, locations, failedAt))
  {
    hide Evaluate, PathIsRead, Unchanged, ChangedIn, SomeResolves, SomeNeverCut, IsRequired, FramesChecked, CandidatesOf, Weighed, Lowest;
    var frames, any := FramesChecked(settings, locations), Repo("", "");
    VerdictByCase(settings, server, locations, failedAt, baselines, runnings, any);
    forall repo | ChangedIn(server, frames, failedAt, repo)
      ensures CaseOn(settings, server, locations, failedAt, baselines, runnings, repo)
      ensures !Unchanged(server, frames, failedAt)
    {
      VerdictByCase(settings, server, locations, failedAt, baselines, runnings, repo);
      ChangedIsNotUnchanged(server, frames, failedAt, repo);
    }
  }

  /** What the verdict is when the changes are in `repo`. */
  ghost predicate CaseOn(settings: Settings, server: string -> Answers, locations: seq<Frame>, failedAt: Option<int>,
                         baselines: seq<Option<Version>>, runnings: seq<Option<Version>>, repo: Repo)
  {
    IsOn(settings, locations) && PathIsRead(server, FramesChecked(settings, locations), failedAt) ==>
      OnVersions(Evaluate(settings, server, locations, failedAt, baselines, runnings), server(repo.slug), repo,
                 CandidatesOf(settings, server, locations, failedAt), Lowest(baselines), Lowest(runnings))
  }

  /** UNKNOWN, exactly: the check is off, the path was not read, the changes are in several repositories, no
      candidate tells anything; or the running builds cannot be read, the required version is not above the
      failing builds, or the running builds reach it and no failing build is on record. */
  lemma UnknownExactly(settings: Settings, server: string -> Answers, locations: seq<Frame>, failedAt: Option<int>,
                       baselines: seq<Option<Version>>, runnings: seq<Option<Version>>)
    ensures var frames := FramesChecked(settings, locations);
      var candidates := CandidatesOf(settings, server, locations, failedAt);
      Evaluate(settings, server, locations, failedAt, baselines, runnings).verdict == Unknown <==>
        || !IsOn(settings, locations) || !PathIsRead(server, frames, failedAt)
        || (!Unchanged(server, frames, failedAt) && forall repo :: !ChangedIn(server, frames, failedAt, repo))
        || exists repo :: && ChangedIn(server, frames, failedAt, repo)
             && if SomeResolves(server(repo.slug), repo, candidates)
                then exists v :: IsRequired(server(repo.slug), repo, candidates, v)
                       && Evaluate(settings, server, locations, failedAt, baselines, runnings).required == Some(v)
                       && (|| Lowest(runnings).None?
                           || (Lowest(baselines).Some? && Compare(v, Lowest(baselines).value) <= 0)
                           || (Lowest(baselines).None? && Compare(Lowest(runnings).value, v) >= 0))
                else !SomeNeverCut(server(repo.slug), repo, candidates)
  {
    hide Evaluate, PathIsRead, Unchanged, ChangedIn, SomeResolves, SomeNeverCut, IsRequired, FramesChecked, CandidatesOf, Lowest, Compare;
    var frames, any := FramesChecked(settings, locations), Repo("", "");
    VerdictByCase(settings, server, locations, failedAt, baselines, runnings, any);
    forall repo | ChangedIn(server, frames, failedAt, repo)
      ensures CaseOn(settings, server, locations, failedAt, baselines, runnings, repo)
      ensures !Unchanged(server, frames, failedAt)
    {
      VerdictByCase(settings, server, locations, failedAt, baselines, runnings, repo);
      ChangedIsNotUnchanged(server, frames, failedAt, repo);
    }
  }

  /** With the whole list of bumps, a candidate that was never cut is in no build cut at a bump. */
  lemma NeverCutIsRight(answers: Answers, h: seq<Landed>, repo: Repo, c: Commit, x: nat, b: nat)
    requires Linear(h) && Bumping(h, repo) && CompleteBumps(answers, h, repo) && Lists(h, c, x)
    requires NothingCutSince(answers, repo, c) && b in Bumps(h, repo)
    ensures b < x
  {
    hide Compare, TouchesVersionFile;
    assert !MayFollow(AsListed(h[b]), c);
    if b >= x {
      LaterMayFollow(h, x, b);
    }
  }

  lemma LaterMayFollow(h: seq<Landed>, x: nat, b: nat)
    requires Linear(h) && x <= b < |h| && h[b].readable
    ensures MayFollow(AsListed(h[b]), AsListed(h[x]))
  {
    assert x < b ==> h[x].time < h[b].time;
  }
}
