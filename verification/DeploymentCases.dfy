/** Histories and answers on which the verdict of the replay precheck is wrong, and one on which it is exact. */
module DeploymentCases {
  import opened Options
  import opened Versions
  import opened CodeCheck
  import opened Deployment

  // ---------------------------------------------------------------------
  // Where it goes wrong
  // ---------------------------------------------------------------------

  /** A commit whose time cannot be read is taken to have shipped in the oldest listed bump, however
      late it landed. */
  lemma UnreadableTimeTakesOldest(answers: Answers, repo: Repo, c: Commit)
    requires c.timestamp.None? && c.id != "" && c.id in answers.changed
    requires !TouchesVersionFile(answers.changed[c.id], repo.versionFile)
    requires repo.versionFile != "" && repo.versionFile in answers.commits && answers.commits[repo.versionFile] != []
    ensures var listed := answers.commits[repo.versionFile];
      FirstContaining(answers, repo, c) == VersionAt(answers, listed[|listed| - 1].id)
  {
    AllSince(answers.commits[repo.versionFile]);
  }

  lemma {:induction false} AllSince(commits: seq<Commit>)
    ensures Since(commits, None) == commits
  {
    if commits != [] {
      AllSince(commits[1..]);
    }
  }

  const Pom: Path := "pom.xml"
  const NestedPom: Path := "m/pom.xml"
  const Source: Path := "A"
  const Here: Repo := Repo("a", Pom)

  function Release(n: nat): Version { Version([n], false, None) }

  lemma ReleasesAreOrdered(m: nat, n: nat)
    requires m < n
    ensures Compare(Release(m), Release(n)) < 0 && Compare(Release(n), Release(m)) > 0
  {
    CompareMeaning(Release(m), Release(n));
    CompareAntisymmetric(Release(m), Release(n));
    assert FirstBelow([m], [n], 0);
  }

  /** One commit touches the source file and a nested module's version file, and bumps nothing. */
  const Fix: Commit := Commit("c2", Some(20))

  function NestedServer(slug: string): Answers {
    Answers(map[Source := [Fix]], map["c2" := {Source, NestedPom}], map["c2" := Release(2)])
  }

  const NestedHistory: seq<Landed> :=
    [Landed("c0", 0, true, {Pom}, Release(1)), Landed("c1", 10, true, {Pom}, Release(2)), Landed("c2", 20, true, {Source, NestedPom}, Release(2))]

  const Defaults: Settings := Settings(true, true, true, 5, 10)

  lemma NestedBasename()
    ensures Basename(NestedPom) == Basename(Pom) == "pom.xml"
  {
    assert NestedPom[1..] == "/pom.xml" && "/pom.xml"[1..] == Pom;
  }

  lemma NestedCounts(paths: set<Path>)
    requires NestedPom in paths
    ensures TouchesVersionFile(paths, Pom)
  {
    NestedBasename();
  }

  lemma FixResolves()
    ensures FirstContaining(NestedServer("a"), Here, Fix) == In(Release(2))
  {
    hide Basename, TouchesVersionFile;
    NestedCounts({Source, NestedPom});
  }

  lemma FixIsTheCandidate()
    ensures ChangedProbes(Defaults, NestedServer, [Frame.Mapped(Here, Source)], Some(15)) == [Probe(Here, Source, Some([Fix]))]
    ensures MappedProbes(Probes(NestedServer, [Frame.Mapped(Here, Source)], Some(15))) != []
    ensures !Unread(Probes(NestedServer, [Frame.Mapped(Here, Source)], Some(15)))
  {
    var frames := [Frame.Mapped(Here, Source)];
    assert Since([Fix], Some(15)) == [Fix];
    var probes := Probes(NestedServer, frames, Some(15));
    assert probes == [Probe(Here, Source, Some([Fix]))];
    assert probes[1..] == [];
    assert MappedProbes(probes) == probes + MappedProbes([]);
    assert Changed(probes) == probes + Changed([]);
    assert FramesChecked(Defaults, frames) == frames;
  }

  lemma NestedIsObserved()
    ensures Linear(NestedHistory) && Uniform(NestedHistory) && Truthful(NestedServer("a"), NestedHistory)
  {
    ReleasesAreOrdered(1, 2);
    CompareAntisymmetric(Release(2), Release(2));
    hide Compare;
    assert Lists(NestedHistory, Fix, 2);
  }

  /** A nested version file counts as the version file by its name, so a fix that only edits one is
      read as shipped in the version already cut: the verdict is FIX_DEPLOYED while the running
      build, cut at commit 1, does not contain the fix, which is commit 2. */
  lemma NestedVersionFileMisleads()
    ensures Evaluate(Defaults, NestedServer, [Frame.Mapped(Here, Source)], Some(15),
                     [Some(Release(1))], [Some(Release(2))]).verdict == FixDeployed
    ensures CandidatesOf(Defaults, NestedServer, [Frame.Mapped(Here, Source)], Some(15)) == [AsListed(NestedHistory[2])]
    ensures Running([Some(Release(2))], [1], NestedHistory)
    ensures Observed(Defaults, NestedServer, [Frame.Mapped(Here, Source)], Some(15), Here, NestedHistory)
  {
    NestedIsObserved();
    hide FirstContaining, Probes, Changed, MappedProbes, Unread, NestedServer, Linear, Uniform, Truthful;
    FixIsTheCandidate();
    FixResolves();
    assert Upto([Fix], 10) == [Fix];
    assert Candidates([Probe(Here, Source, Some([Fix]))], 10) == [Fix];
    assert Require(NothingResolved, In(Release(2))) == AtVersion(Release(2));
    assert Highest(NestedServer("a"), Here, [Fix], {}, NothingResolved) == AtVersion(Release(2));
    ReleasesAreOrdered(1, 2);
    CompareAntisymmetric(Release(2), Release(2));
    hide Compare;
  }

  /** The fix, listed without a time, after which nothing was cut. */
  const Late: Commit := Commit("c2", None)

  const LateHistory: seq<Landed> :=
    [Landed("c0", 0, true, {Pom}, Release(1)), Landed("c1", 10, true, {Pom}, Release(2)), Landed("c2", 20, false, {Source}, Release(2))]

  function LateServer(slug: string): Answers {
    Answers(map[Source := [Late], Pom := [Commit("c1", Some(10)), Commit("c0", Some(0))]], map["c2" := {Source}],
            map["c0" := Release(1), "c1" := Release(2), "c2" := Release(2)])
  }

  lemma LateResolves()
    ensures FirstContaining(LateServer("a"), Here, Late) == In(Release(1))
  {
    PomIsItsName();
    assert Basename(Source) == Source;
    var bumps := [Commit("c1", Some(10)), Commit("c0", Some(0))];
    AllSince(bumps);
    assert !TouchesVersionFile({Source}, Pom);
  }

  lemma LateIsTheCandidate()
    ensures ChangedProbes(Defaults, LateServer, [Frame.Mapped(Here, Source)], Some(15)) == [Probe(Here, Source, Some([Late]))]
    ensures MappedProbes(Probes(LateServer, [Frame.Mapped(Here, Source)], Some(15))) != []
    ensures !Unread(Probes(LateServer, [Frame.Mapped(Here, Source)], Some(15)))
  {
    PomIsItsName();
    var frames := [Frame.Mapped(Here, Source)];
    assert [Late][1..] == [];
    assert Since([Late], Some(15)) == [Late];
    assert LateServer("a").commits[Source] == [Late];
    var probes := Probes(LateServer, frames, Some(15));
    assert CommitsTouching(LateServer("a"), Source, Some(15)) == Some([Late]);
    assert probes == [Probe(Here, Source, Some([Late]))];
    assert probes[1..] == [];
    assert MappedProbes(probes) == probes + MappedProbes([]);
    assert Changed(probes) == probes + Changed([]);
    assert FramesChecked(Defaults, frames) == frames;
  }

  lemma LateIsObserved()
    ensures Linear(LateHistory) && Uniform(LateHistory) && Truthful(LateServer("a"), LateHistory)
  {
    PomIsItsName();
    ReleasesAreOrdered(1, 2);
    CompareAntisymmetric(Release(2), Release(2));
    hide Compare;
    assert Lists(LateHistory, Commit("c0", Some(0)), 0) && Lists(LateHistory, Commit("c1", Some(10)), 1) && Lists(LateHistory, Late, 2);
  }

  /** With that, a wrong verdict: FIX_DEPLOYED while the running build, cut at commit 1, does not contain
      the fix, which is commit 2 and has not been cut at all. */
  lemma UnreadableTimeMisleads()
    ensures Evaluate(Defaults, LateServer, [Frame.Mapped(Here, Source)], Some(15),
                     [Some(Release(0))], [Some(Release(2))]).verdict == FixDeployed
    ensures CandidatesOf(Defaults, LateServer, [Frame.Mapped(Here, Source)], Some(15)) == [AsListed(LateHistory[2])]
    ensures Running([Some(Release(2))], [1], LateHistory)
    ensures Observed(Defaults, LateServer, [Frame.Mapped(Here, Source)], Some(15), Here, LateHistory)
  {
    LateIsObserved();
    hide FirstContaining, Probes, Changed, MappedProbes, Unread, LateServer, Linear, Uniform, Truthful;
    LateIsTheCandidate();
    LateResolves();
    assert Upto([Late], 10) == [Late];
    assert Candidates([Probe(Here, Source, Some([Late]))], 10) == [Late];
    assert Require(NothingResolved, In(Release(1))) == AtVersion(Release(1));
    assert Highest(LateServer("a"), Here, [Late], {}, NothingResolved) == AtVersion(Release(1));
    ReleasesAreOrdered(0, 1);
    ReleasesAreOrdered(1, 2);
    hide Compare;
  }

  function TwinServer(slug: string): Answers {
    Answers(map[Source := if slug == "a" then [] else [Fix]], map[], map[])
  }

  /** The lookup is remembered by path alone, so a file of the same path in a second repository is
      never looked up: the verdict is NO_CHANGE while that repository lists a later commit. */
  lemma TwinPathMisleads()
    ensures var locations := [Frame.Mapped(Here, Source), Frame.Mapped(Repo("b", Pom), Source)];
      Evaluate(Defaults, TwinServer, locations, Some(15), [], []).verdict == NoChange
    ensures CommitsTouching(TwinServer("b"), Source, Some(15)) == Some([Fix])
  {
    var b := Repo("b", Pom);
    var locations := [Frame.Mapped(Here, Source), Frame.Mapped(b, Source)];
    var probes := Probes(TwinServer, locations, Some(15));
    var p, q := Probe(Here, Source, Some([])), Probe(b, Source, Some([]));
    assert probes == [p, q];
    assert probes[1..] == [q] && probes[1..][1..] == [];
    assert Since([Fix], Some(15)) == [Fix];
    assert MappedProbes(probes) == [p] + MappedProbes([q]);
    assert Changed(probes) == Changed([q]) == Changed([]);
  }

  // ---------------------------------------------------------------------
  // The hypotheses can be met
  // ---------------------------------------------------------------------

  const First: Commit := Commit("c0", Some(0))
  const Bump: Commit := Commit("c1", Some(20))

  /** The second commit fixes the source file and bumps the version with it. */
  const BumpHistory: seq<Landed> := [Landed("c0", 0, true, {Pom}, Release(1)), Landed("c1", 20, true, {Source, Pom}, Release(2))]

  function BumpServer(slug: string): Answers {
    Answers(map[Source := [Bump], Pom := [Bump, First]], map["c1" := {Source, Pom}], map["c1" := Release(2)])
  }

  lemma PomIsItsName()
    ensures Basename(Pom) == Pom != "" && Source != Pom
  {
  }

  lemma BumpHistoryIsLinear()
    ensures Linear(BumpHistory) && Uniform(BumpHistory) && Bumping(BumpHistory, Here)
    ensures Bumped(BumpHistory[0], Here) && Bumped(BumpHistory[1], Here)
  {
    PomIsItsName();
    assert Pom in {Pom} && Pom in {Source, Pom};
    hide Basename;
    ReleasesAreOrdered(1, 2);
    hide Compare;
  }

  lemma BumpServerIsTruthful()
    ensures Truthful(BumpServer("a"), BumpHistory) && CompleteBumps(BumpServer("a"), BumpHistory, Here)
  {
    PomIsItsName();
    assert Lists(BumpHistory, First, 0) && Lists(BumpHistory, Bump, 1);
    assert NotOlder(Bump, First);
  }

  lemma BumpIsTheCandidate()
    ensures ChangedProbes(Defaults, BumpServer, [Frame.Mapped(Here, Source)], Some(15)) == [Probe(Here, Source, Some([Bump]))]
    ensures CandidatesOf(Defaults, BumpServer, [Frame.Mapped(Here, Source)], Some(15)) == [Bump]
    ensures !Unread(Probes(BumpServer, [Frame.Mapped(Here, Source)], Some(15)))
    ensures FirstContaining(BumpServer("a"), Here, Bump) == In(Release(2))
  {
    PomIsItsName();
    var frames := [Frame.Mapped(Here, Source)];
    assert Since([Bump], Some(15)) == [Bump];
    var probes := Probes(BumpServer, frames, Some(15));
    assert probes == [Probe(Here, Source, Some([Bump]))];
    assert probes[1..] == [];
    assert Changed(probes) == probes + Changed([]);
    assert FramesChecked(Defaults, frames) == frames;
    assert Upto([Bump], 10) == [Bump];
    assert Candidates(probes, 10) == [Bump] + Candidates([], 10);
    assert Pom in {Source, Pom};
  }

  /** A situation the exactness theorems are about, in which the version moves with the fix. */
  lemma ExactVerdictApplies()
    ensures Observed(Defaults, BumpServer, [Frame.Mapped(Here, Source)], Some(15), Here, BumpHistory)
    ensures CanDecide(Defaults, BumpServer, [Frame.Mapped(Here, Source)], Some(15), [Some(Release(1))], Here)
    ensures Bumping(BumpHistory, Here) && CompleteBumps(BumpServer("a"), BumpHistory, Here)
    ensures Running([Some(Release(2))], [1], BumpHistory) && CutFrom([1], Bumps(BumpHistory, Here))
    ensures RequiredOf(Defaults, BumpServer, [Frame.Mapped(Here, Source)], Some(15), Here) == AtVersion(Release(2))
    ensures ParentsBehind(BumpServer("a"), Here, [Bump], BumpHistory, Release(2))
    ensures NewestShips(BumpServer("a"), Here, [Bump], BumpHistory, Release(2))
  {
    hide FirstContaining, Probes, Changed, Candidates, Unread, Linear, Uniform, Truthful, CompleteBumps, Bumped, Bumping, BumpServer;
    BumpHistoryIsLinear();
    BumpServerIsTruthful();
    BumpIsTheCandidate();
    ReleasesAreOrdered(1, 2);
    assert Require(NothingResolved, In(Release(2))) == AtVersion(Release(2));
    assert Highest(BumpServer("a"), Here, [Bump], {}, NothingResolved) == AtVersion(Release(2));
    assert forall x: nat :: Lists(BumpHistory, Bump, x) ==> x == 1;
    CompareAntisymmetric(Release(2), Release(2));
    hide Compare;
  }
}
