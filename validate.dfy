/** The entry point of `validate.js`: the mode argument selects the passes,
    their issues are added up, and the exit code says whether any were
    found. */
module Validate {
  import opened Wrappers
  import opened ProjectState
  import opened PassResults
  import opened ValidateState
  import opened ValidateContracts
  import opened ValidateLinks

  /** What the passes read from disk: the state document, the contracts
      document if present, whether the blueprint directory exists, the files
      its walk visits, and which paths exist. */
  datatype Blueprints = Blueprints(
    state: StoredDoc,
    contracts: Option<string>,
    blueprintDirExists: bool,
    docs: seq<Doc>,
    fileExists: string -> bool)

  /** `process.argv[2] || 'all'`. */
  function ModeOf(arg: Option<string>): (mode: string)
    ensures arg.None? || arg.value == "" ==> mode == "all"
    ensures arg.Some? && arg.value != "" ==> mode == arg.value
  {
    if arg.Some? && arg.value != "" then arg.value else "all"
  }

  predicate Selects(mode: string, pass: string) {
    mode == pass || mode == "all"
  }

  /** The `results` object: a pass appears only when the mode selected it. */
  datatype Report = Report(state: Option<PassResult>, contracts: Option<PassResult>, links: Option<PassResult>)

  function IssuesOf(r: Option<PassResult>): nat {
    match r
    case None => 0
    case Some(p) => p.issues
  }

  /** `Object.values(results).reduce((sum, r) => sum + r.issues, 0)`. */
  function Total(rep: Report): nat {
    IssuesOf(rep.state) + IssuesOf(rep.contracts) + IssuesOf(rep.links)
  }

  /** How the process ends: with the report and `process.exit`, or on the
      uncaught exception of a state document that does not parse. */
  datatype Run = Finished(report: Report, total: nat, exitCode: int) | Aborted(exitCode: int)

  function Validation(arg: Option<string>, fs: Blueprints): Run {
    var mode := ModeOf(arg);
    if Selects(mode, "state") && fs.state.Malformed? then Aborted(1)
    else
      var rep := Report(
        if Selects(mode, "state") then Some(StatePass(fs.state).result) else None,
        if Selects(mode, "contracts") then Some(ContractPass(fs.contracts)) else None,
        if Selects(mode, "links") then Some(LinkPass(fs.blueprintDirExists, fs.docs, fs.fileExists)) else None);
      Finished(rep, Total(rep), if Total(rep) > 0 then 1 else 0)
  }

  /** The main block: each selected pass in turn, then the total. */
  method RunValidator(arg: Option<string>, fs: Blueprints) returns (r: Run)
    ensures r == Validation(arg, fs)
  {
    var mode := ModeOf(arg);
    var state: Option<PassResult> := None;
    var contracts: Option<PassResult> := None;
    var links: Option<PassResult> := None;
    if mode == "state" || mode == "all" {
      var run := RunStatePass(fs.state);
      if run.Crashed? {
        return Aborted(1);
      }
      state := Some(run.result);
    }
    if mode == "contracts" || mode == "all" {
      var res, _ := RunContractPass(fs.contracts);
      contracts := Some(res);
    }
    if mode == "links" || mode == "all" {
      var res, _ := RunLinkPass(fs.blueprintDirExists, fs.docs, fs.fileExists);
      links := Some(res);
    }
    var report := Report(state, contracts, links);
    var total := IssuesOf(state) + IssuesOf(contracts) + IssuesOf(links);
    r := Finished(report, total, if total > 0 then 1 else 0);
  }

  /** The exit code is 1 exactly when some issue was found, 0 otherwise,
      and 1 after an abort. */
  lemma {:induction false} ExitCodeIff(arg: Option<string>, fs: Blueprints)
    ensures Validation(arg, fs).Finished? ==>
      (Validation(arg, fs).exitCode == 1 <==> Validation(arg, fs).total > 0)
      && (Validation(arg, fs).exitCode == 0 <==> Validation(arg, fs).total == 0)
    ensures Validation(arg, fs).Aborted? <==>
      Selects(ModeOf(arg), "state") && fs.state.Malformed?
    ensures Validation(arg, fs).Aborted? ==> Validation(arg, fs).exitCode == 1
  {
  }

  /** A mode no pass answers to runs nothing and exits 0. */
  lemma {:induction false} UnknownModeRunsNothing(arg: Option<string>, fs: Blueprints)
    requires ModeOf(arg) !in ["state", "contracts", "links", "all"]
    ensures Validation(arg, fs) == Finished(Report(None, None, None), 0, 0)
  {
  }

  /** With no argument every pass runs and the total is their sum. */
  lemma {:induction false} AllModeSums(fs: Blueprints)
    requires !fs.state.Malformed?
    ensures Validation(None, fs).Finished?
    ensures var rep := Validation(None, fs).report;
      rep.state.Some? && rep.contracts.Some? && rep.links.Some?
      && Validation(None, fs).total == rep.state.value.issues + rep.contracts.value.issues + rep.links.value.issues
  {
  }

  /** A single-pass mode reports only that pass, and its total is that
      pass's issues. */
  lemma {:induction false} SingleModeReportsOne(fs: Blueprints)
    ensures Validation(Some("contracts"), fs) == Finished(Report(None, Some(ContractPass(fs.contracts)), None),
      ContractPass(fs.contracts).issues, if ContractPass(fs.contracts).issues > 0 then 1 else 0)
    ensures Validation(Some("links"), fs).Finished?
      && Validation(Some("links"), fs).total == |BrokenLinks(fs.docs, fs.fileExists)| * (if fs.blueprintDirExists then 1 else 0)
  {
  }
}
