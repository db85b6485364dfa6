/** The replay precheck of src/dlt/code_check.py over the repository answers of
    src/dlt/bitbucket.py: probe the call path, resolve each change to the first version that
    carries it, and compare the running builds with the highest of those. */
module CodeCheck {
  import opened Options
  import opened Versions

  type Path = string

  datatype Commit = Commit(id: string, timestamp: Option<int>)

  datatype Repo = Repo(slug: string, versionFile: Path)

  /** What one repository answers. A missing entry is a read that failed, which is not an empty
      answer. `version` holds what parses of the version file at a commit. */
  datatype Answers = Answers(commits: map<Path, seq<Commit>>, changed: map<string, set<Path>>, version: map<string, Version>)

  // ---------------------------------------------------------------------
  // Repository answers
  // ---------------------------------------------------------------------

  /** Commits at or after an instant, and those whose time cannot be read. */
  function Since(commits: seq<Commit>, since: Option<int>): seq<Commit> {
    if commits == [] then []
    else if since.None? || commits[0].timestamp.None? || commits[0].timestamp.value >= since.value
    then [commits[0]] + Since(commits[1..], since)
    else Since(commits[1..], since)
  }

  function CommitsTouching(answers: Answers, path: Path, since: Option<int>): Option<seq<Commit>> {
    if path == "" || path !in answers.commits then None else Some(Since(answers.commits[path], since))
  }

  /** The part of a path after its last slash. */
  function Basename(path: Path): string {
    if '/' in path then Basename(path[1..]) else path
  }

  lemma {:induction false} BasenameExactly(path: Path)
    ensures var name := Basename(path);
      && '/' !in name && |name| <= |path| && path[|path| - |name|..] == name
      && (name == path || path[|path| - |name| - 1] == '/')
  {
    if '/' in path {
      BasenameExactly(path[1..]);
    }
  }

  predicate TouchesVersionFile(paths: set<Path>, versionFile: Path) {
    Basename(versionFile) != "" && exists p | p in paths :: Basename(p) == Basename(versionFile)
  }

  datatype Resolution = Unreadable | NeverCut | In(version: Version)

  function VersionAt(answers: Answers, id: string): Resolution {
    if id in answers.version then In(answers.version[id]) else Unreadable
  }

  /** The earliest version that carries `commit`. */
  function FirstContaining(answers: Answers, repo: Repo, commit: Commit): Resolution {
    if commit.id == "" || commit.id !in answers.changed then Unreadable
    else if TouchesVersionFile(answers.changed[commit.id], repo.versionFile) then VersionAt(answers, commit.id)
    else
      var bumps := CommitsTouching(answers, repo.versionFile, commit.timestamp);
      if bumps.None? then Unreadable
      else if bumps.value == [] then NeverCut
      else VersionAt(answers, bumps.value[|bumps.value| - 1].id)
  }

  // ---------------------------------------------------------------------
  // Probing the call path
  // ---------------------------------------------------------------------

  /** A frame of the trace: mapped to a file of a repository, or not. */
  datatype Frame = Unmapped | Mapped(repo: Repo, path: Path)

  datatype Probe = Blind | Probe(repo: Repo, path: Path, commits: Option<seq<Commit>>)

  /** The repository of the first frame on `path`: the one the path is looked up in. */
  function AskedRepo(frames: seq<Frame>, path: Path): Option<Repo> {
    if frames == [] then None
    else if frames[0].Mapped? && frames[0].path == path then Some(frames[0].repo)
    else AskedRepo(frames[1..], path)
  }

  function ProbeOf(server: string -> Answers, frames: seq<Frame>, frame: Frame, since: Option<int>): Probe {
    if frame.Unmapped? || AskedRepo(frames, frame.path).None? then Blind
    else Probe(frame.repo, frame.path,
               CommitsTouching(server(AskedRepo(frames, frame.path).value.slug), frame.path, since))
  }

  function Probes(server: string -> Answers, frames: seq<Frame>, since: Option<int>): seq<Probe> {
    seq(|frames|, k requires 0 <= k < |frames| => ProbeOf(server, frames, frames[k], since))
  }

  lemma {:induction false} AskedOnce(frames: seq<Frame>, path: Path, k: nat)
    requires k <= |frames|
    ensures AskedRepo(frames[..k], path).Some? ==> AskedRepo(frames, path) == AskedRepo(frames[..k], path)
    ensures k < |frames| && frames[k].Mapped? && frames[k].path == path && AskedRepo(frames[..k], path).None?
            ==> AskedRepo(frames, path) == Some(frames[k].repo)
    ensures k < |frames| ==>
      AskedRepo(frames[..k + 1], path)
        == if AskedRepo(frames[..k], path).None? && frames[k].Mapped? && frames[k].path == path
           then Some(frames[k].repo) else AskedRepo(frames[..k], path)
    decreases |frames|
  {
    if k > 0 {
      assert frames[..k][1..] == frames[1..][..k - 1];
      if k < |frames| { assert frames[..k + 1][1..] == frames[1..][..k]; }
      AskedOnce(frames[1..], path, k - 1);
    } else if |frames| > 0 {
      assert frames[..1][1..] == [] && frames[..0] == [];
    }
  }

  method ProbePath(server: string -> Answers, frames: seq<Frame>, since: Option<int>) returns (probes: seq<Probe>)
    ensures probes == Probes(server, frames, since)
  {
    var seen: map<Path, Option<seq<Commit>>> := map[];
    probes := [];
    for k := 0 to |frames|
      invariant probes == Probes(server, frames, since)[..k]
      invariant forall p :: p in seen <==> AskedRepo(frames[..k], p).Some?
      invariant forall p | p in seen ::
        seen[p] == CommitsTouching(server(AskedRepo(frames[..k], p).value.slug), p, since)
    {
      var frame := frames[k];
      forall p {
        AskedOnce(frames, p, k);
      }
      if frame.Unmapped? {
        probes := probes + [Blind];
        continue;
      }
      if frame.path in seen {
        probes := probes + [Probe(frame.repo, frame.path, seen[frame.path])];
        continue;
      }
      var commits := CommitsTouching(server(frame.repo.slug), frame.path, since);
      seen := seen[frame.path := commits];
      probes := probes + [Probe(frame.repo, frame.path, commits)];
    }
  }

  // ---------------------------------------------------------------------
  // The version every candidate has shipped in
  // ---------------------------------------------------------------------

  datatype Required = NothingResolved | NotCut | AtVersion(version: Version)

  /** One candidate's share: the highest version wins, and "never cut" only stands alone. */
  function Require(required: Required, r: Resolution): Required {
    match r
    case Unreadable => required
    case NeverCut => if required.NothingResolved? then NotCut else required
    case In(v) => if !required.AtVersion? || Compare(v, required.version) > 0 then AtVersion(v) else required
  }

  function Highest(answers: Answers, repo: Repo, commits: seq<Commit>, seen: set<string>, required: Required): Required
    decreases |commits|
  {
    if commits == [] then required
    else if commits[0].id in seen then Highest(answers, repo, commits[1..], seen, required)
    else Highest(answers, repo, commits[1..], seen + {commits[0].id},
                 Require(required, FirstContaining(answers, repo, commits[0])))
  }

  /** The candidates: the first `max` commits of each probe, in call-path order. */
  function Candidates(probes: seq<Probe>, max: nat): seq<Commit> {
    if probes == [] then []
    else (if probes[0].Probe? && probes[0].commits.Some? then Upto(probes[0].commits.value, max) else [])
         + Candidates(probes[1..], max)
  }

  function Upto(commits: seq<Commit>, max: nat): (first: seq<Commit>)
    ensures first <= commits && |first| == if |commits| < max then |commits| else max
  {
    if |commits| <= max then commits else commits[..max]
  }

  method HighestRequired(answers: Answers, repo: Repo, probes: seq<Probe>, max: nat) returns (required: Required)
    ensures required == Highest(answers, repo, Candidates(probes, max), {}, NothingResolved)
  {
    required := NothingResolved;
    var seen: set<string> := {};
    ghost var goal := Highest(answers, repo, Candidates(probes, max), {}, NothingResolved);
    assert probes[0..] == probes;
    for k := 0 to |probes|
      invariant goal == Highest(answers, repo, Candidates(probes[k..], max), seen, required)
    {
      var commits: seq<Commit> :=
        if probes[k].Probe? && probes[k].commits.Some? then Upto(probes[k].commits.value, max) else [];
      ghost var later := Candidates(probes[k + 1..], max);
      assert probes[k..][1..] == probes[k + 1..];
      assert commits[0..] == commits;
      for i := 0 to |commits|
        invariant goal == Highest(answers, repo, commits[i..] + later, seen, required)
      {
        assert (commits[i..] + later)[1..] == commits[i + 1..] + later;
        if commits[i].id in seen {
          continue;
        }
        seen := seen + {commits[i].id};
        var r := FirstContaining(answers, repo, commits[i]);
        required := Require(required, r);
      }
      assert commits[|commits|..] + later == later;
    }
  }

  // ---------------------------------------------------------------------
  // The verdict
  // ---------------------------------------------------------------------

  datatype Verdict = NoChange | NotDeployed | FixDeployed | Unknown

  datatype Check = Check(verdict: Verdict, required: Option<Version>)

  /** The switches and limits, and whether the failure is of a class that depends on source. */
  datatype Settings = Settings(enabled: bool, configured: bool, checkedClass: bool, maxFrames: nat, maxCandidates: nat)

  function MappedProbes(probes: seq<Probe>): seq<Probe> {
    if probes == [] then [] else (if probes[0].Probe? then [probes[0]] else []) + MappedProbes(probes[1..])
  }

  /** The mapped probes that found a commit. */
  function Changed(probes: seq<Probe>): seq<Probe> {
    if probes == [] then []
    else (if probes[0].Probe? && probes[0].commits.Some? && probes[0].commits.value != [] then [probes[0]] else [])
         + Changed(probes[1..])
  }

  predicate Unread(probes: seq<Probe>) {
    exists k | 0 <= k < |probes| :: probes[k].Probe? && probes[k].commits.None?
  }

  predicate OneRepository(probes: seq<Probe>) {
    forall i, j | 0 <= i < |probes| && 0 <= j < |probes| ::
      probes[i].Probe? && probes[j].Probe? ==> probes[i].repo.slug == probes[j].repo.slug
  }

  /** The comparison at the end: the required version, the failing builds and the running ones. */
  function Compared(required: Required, baseline: Option<Version>, running: Option<Version>): Check {
    match required
    case NothingResolved => Check(Unknown, None)
    case NotCut => Check(NotDeployed, None)
    case AtVersion(v) =>
      if running.None? then Check(Unknown, Some(v))
      else if baseline.Some? && IsAhead(Some(v), baseline) != Some(true) then Check(Unknown, Some(v))
      else if AtLeast(running, Some(v)) == Some(true) then
        if baseline.None? then Check(Unknown, Some(v)) else Check(FixDeployed, Some(v))
      else Check(NotDeployed, Some(v))
  }

  function Evaluate(settings: Settings, server: string -> Answers, locations: seq<Frame>, failedAt: Option<int>,
                    baselines: seq<Option<Version>>, runnings: seq<Option<Version>>): Check
  {
    if !settings.enabled || !settings.checkedClass || !settings.configured || locations == [] then Check(Unknown, None)
    else
      var frames := if |locations| <= settings.maxFrames then locations else locations[..settings.maxFrames];
      var probes := Probes(server, frames, failedAt);
      var changed := Changed(probes);
      if MappedProbes(probes) == [] || Unread(probes) then Check(Unknown, None)
      else if changed == [] then Check(NoChange, None)
      else if !OneRepository(changed) || !changed[0].Probe? then Check(Unknown, None)
      else
        var repo := changed[0].repo;
        var candidates := Candidates(changed, settings.maxCandidates);
        Compared(Highest(server(repo.slug), repo, candidates, {}, NothingResolved), Lowest(baselines), Lowest(runnings))
  }

  method EvaluateCheck(settings: Settings, server: string -> Answers, locations: seq<Frame>, failedAt: Option<int>,
                       baselines: seq<Option<Version>>, runnings: seq<Option<Version>>) returns (check: Check)
    ensures check == Evaluate(settings, server, locations, failedAt, baselines, runnings)
  {
    if !settings.enabled || !settings.checkedClass || !settings.configured || locations == [] {
      return Check(Unknown, None);
    }
    var frames := if |locations| <= settings.maxFrames then locations else locations[..settings.maxFrames];
    var probes := ProbePath(server, frames, failedAt);
    if MappedProbes(probes) == [] || Unread(probes) {
      return Check(Unknown, None);
    }
    var baseline := FindLowest(baselines);
    var running := FindLowest(runnings);
    var changed := Changed(probes);
    if changed == [] {
      return Check(NoChange, None);
    }
    if !OneRepository(changed) || !changed[0].Probe? {
      return Check(Unknown, None);
    }
    var repo := changed[0].repo;
    var required := HighestRequired(server(repo.slug), repo, changed, settings.maxCandidates);
    check := Compared(required, baseline, running);
  }
}
