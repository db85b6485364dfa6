/** The replay gate of src/dlt/auto_replay.py and the question src/dlt/parked.py asks of it. */
module AutoReplay {
  import opened Options
  import opened CodeCheck

  datatype Finding = Finding(action: string, confidence: Option<real>, ceilings: set<string>)

  datatype Policy = Policy(enabled: bool, actions: set<string>, threshold: real, allowUnverified: bool, checkGates: bool)

  const UnverifiableLabel: string := "unverifiable"
  const UnreviewedLabel: string := "unreviewed"

  datatype Refusal = Off | WrongAction | NoConfidence | LowConfidence | Unverified | Unreviewed | NoReference | Vetoed

  datatype Decision = Replay | Refuse(why: Refusal)

  /** Whether a verdict withholds a replay. */
  predicate Vetoes(p: Policy, check: Option<Check>) {
    check.Some? && p.checkGates && check.value.verdict in {NoChange, NotDeployed}
  }

  function Decide(p: Policy, f: Finding, ref: string, check: Option<Check>): Decision {
    if !p.enabled then Refuse(Off)
    else if f.action !in p.actions then Refuse(WrongAction)
    else if f.confidence.None? then Refuse(NoConfidence)
    else if f.confidence.value < p.threshold then Refuse(LowConfidence)
    else if UnverifiableLabel in f.ceilings && !p.allowUnverified then Refuse(Unverified)
    else if UnreviewedLabel in f.ceilings then Refuse(Unreviewed)
    else if ref == "" then Refuse(NoReference)
    else if Vetoes(p, check) then Refuse(Vetoed)
    else Replay
  }

  /** Only the precheck, by saying that a fix is not running yet, stands between the packet and a replay. */
  predicate OnlyAwaitsVersion(p: Policy, f: Finding, ref: string, check: Check) {
    check.verdict == NotDeployed && p.checkGates && Decide(p, f, ref, None) == Replay
  }

  /** The code check is a veto and nothing else: it never turns a refusal into a replay, never changes
      the reason of a refusal that stands without it, and withholds exactly by the two verdicts. */
  lemma CheckOnlyVetoes(p: Policy, f: Finding, ref: string, check: Option<Check>)
    ensures Decide(p, f, ref, check) == Replay <==> Decide(p, f, ref, None) == Replay && !Vetoes(p, check)
    ensures Decide(p, f, ref, None) != Replay ==> Decide(p, f, ref, check) == Decide(p, f, ref, None)
    ensures Decide(p, f, ref, check) == Refuse(Vetoed) <==> Decide(p, f, ref, None) == Replay && Vetoes(p, check)
  {
  }

  /** Exactly what a replay takes, verdict by verdict. */
  lemma ReplayIsEarned(p: Policy, f: Finding, ref: string, check: Option<Check>)
    ensures Decide(p, f, ref, check) == Replay <==>
      && p.enabled && f.action in p.actions && f.confidence.Some? && f.confidence.value >= p.threshold
      && (UnverifiableLabel in f.ceilings ==> p.allowUnverified) && UnreviewedLabel !in f.ceilings
      && ref != "" && (check.Some? && p.checkGates ==> check.value.verdict in {FixDeployed, Unknown})
  {
    if check.Some? {
      match check.value.verdict
      case NoChange =>
      case NotDeployed =>
      case FixDeployed =>
      case Unknown =>
    }
  }
}
