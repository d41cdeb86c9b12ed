/** The scanner adapters: real output, mock output or an error, by options and
    circumstances. */
module Scanners {

  datatype Kind = Nmap | Nuclei | Crypto | Secrets

  datatype Profile = Quick | Web | CriticalProfile | OtherProfile

  function ForProfile(p: Profile): (kinds: seq<Kind>)
    ensures kinds != []
    ensures p == Web ==> kinds == [Nuclei]
    ensures p == CriticalProfile ==> kinds == [Nmap, Nuclei, Crypto, Secrets]
    ensures p == Quick || p == OtherProfile ==> kinds == [Nmap]
  {
    match p
    case Quick => [Nmap]
    case Web => [Nuclei]
    case CriticalProfile => [Nmap, Nuclei, Crypto, Secrets]
    case OtherProfile => [Nmap]
  }

  datatype Options = Options(allowLiveScan: bool, production: bool, scanAuthorized: bool)

  /** How a tool run went: for gitleaks, leaks found are output, not a failure. */
  datatype ToolRun = RunFailed | RunEmpty | RunOutput

  /** What the adapter meets: the tool, the asset and its permissions. */
  datatype Circumstances = Circumstances(
    toolFound: bool, isRepo: bool, assetAuthorized: bool, safeTarget: bool, run: ToolRun)

  datatype Outcome = Error | Real | Mock

  predicate LiveAllowed(o: Options, c: Circumstances) {
    o.allowLiveScan && (o.scanAuthorized || c.assetAuthorized || c.safeTarget)
  }

  function Fallback(o: Options): Outcome {
    if o.production then Error else Mock
  }

  function Scan(kind: Kind, o: Options, c: Circumstances): Outcome {
    match kind
    case Nmap =>
      if !c.toolFound || !LiveAllowed(o, c) then Fallback(o)
      else if c.run.RunOutput? then Real
      else if o.production then Error else Mock
    case Nuclei =>
      if !c.toolFound || !LiveAllowed(o, c) then Fallback(o)
      else if c.run.RunOutput? then Real
      else if c.run.RunFailed? && o.production then Error
      else if o.production then Real else Mock
    case Crypto =>
      if LiveAllowed(o, c) && !c.run.RunFailed? then Real
      else if o.production then Error else Mock
    case Secrets =>
      if !c.isRepo then Real
      else if !c.toolFound then Fallback(o)
      else if c.run.RunFailed? then Fallback(o)
      else Real
  }

  /** Production never fabricates data; development never fails; and a network scan runs
      for real only where live scanning is permitted. */
  lemma ScanGuarantees(kind: Kind, o: Options, c: Circumstances)
    ensures o.production ==> Scan(kind, o, c) != Mock
    ensures !o.production ==> Scan(kind, o, c) != Error
    ensures Scan(kind, o, c) == Real && !kind.Secrets? ==> LiveAllowed(o, c)
  {
  }

  /** When a scanner runs for real, exactly; otherwise it errs in production and makes up
      data in development. */
  lemma OutcomeIff(kind: Kind, o: Options, c: Circumstances)
    ensures var live := o.allowLiveScan && (o.scanAuthorized || c.assetAuthorized || c.safeTarget);
            Scan(kind, o, c) == Real <==>
              || (kind == Nmap && c.toolFound && live && c.run == RunOutput)
              || (kind == Nuclei && c.toolFound && live && (c.run == RunOutput || (c.run == RunEmpty && o.production)))
              || (kind == Crypto && live && c.run != RunFailed)
              || (kind == Secrets && (!c.isRepo || (c.toolFound && c.run != RunFailed)))
    ensures Scan(kind, o, c) != Real ==> Scan(kind, o, c) == if o.production then Error else Mock
  {
  }
}
