/** `state-backup.js`, the session-start hook: four lines saying where the
    previous session stopped, one line when the state cannot be read, and
    nothing without a state file. It exits 0 in every case. */
module StateBackup {
  import opened Wrappers
  import opened Text
  import opened ProjectState
  import StateSummary

  /** This hook's own phase table: phase 4 is "Assignment" here. */
  function PhaseName(n: int): (r: Option<string>)
    ensures r.Some? <==> 1 <= n <= 6
  {
    if n == 1 then Some("Discovery")
    else if n == 2 then Some("Structure")
    else if n == 3 then Some("Planning")
    else if n == 4 then Some("Assignment")
    else if n == 5 then Some("Execution")
    else if n == 6 then Some("Integration")
    else None
  }

  /** `state.currentPhase || '?'`: None stands for '?', which a missing
      phase and phase 0 both give. */
  function ResumePhase(s: State): (p: Option<int>)
    ensures p.Some? <==> s.currentPhase.Some? && s.currentPhase.value != 0
  {
    if s.currentPhase.Some? && s.currentPhase.value != 0 then s.currentPhase else None
  }

  function PhaseText(p: Option<int>): string {
    match p
    case None => "?"
    case Some(n) => IntToString(n)
  }

  /** `{...}[phase] || 'Unknown'`; '?' is no key of the table. */
  function ResumePhaseName(p: Option<int>): string {
    match p
    case None => "Unknown"
    case Some(n) => PhaseName(n).GetOr("Unknown")
  }

  /** `state.phases?.[String(phase)]?.progress || 0`; there is no phase
      "?". */
  function ResumeProgress(s: State): int {
    match ResumePhase(s)
    case None => 0
    case Some(n) => ProgressOf(s, n)
  }

  function ResumeLines(s: State): seq<string> {
    var p := ResumePhase(s);
    ["[framework-dev] Previous session found: \"" + StrOr(s.projectName, "Unnamed") + "\"",
     "  Phase " + PhaseText(p) + " (" + ResumePhaseName(p) + ") - " + IntToString(ResumeProgress(s)) + "% complete",
     "  Last updated: " + StrOr(s.updatedAt, "unknown"),
     "  Use \"/framework-dev resume\" to continue or start fresh."]
  }

  /** The hook's output; the `catch` turns a parse error into one line. */
  function ResumeMessage(doc: StoredDoc): (lines: seq<string>)
    ensures doc.Absent? <==> lines == []
    ensures doc.Malformed? ==> |lines| == 1
    ensures doc.Parsed? ==> |lines| == 4
  {
    match doc
    case Absent => []
    case Malformed(message) => ["[framework-dev] State file found but unreadable: " + message]
    case Parsed(s) => ResumeLines(s)
  }

  /** Every outcome exits 0. */
  const ExitCode := 0

  /** The two scripts' phase tables agree except on phase 4. */
  lemma {:induction false} PhaseTablesDifferOnlyAtFour(n: int)
    ensures n != 4 ==> PhaseName(n) == StateSummary.PhaseName(n)
    ensures PhaseName(4) == Some("Assignment") && StateSummary.PhaseName(4) == Some("Agent Assignment")
    ensures PhaseName(4) != StateSummary.PhaseName(4)
  {
    assert "Assignment"[1] != "Agent Assignment"[1];
  }

  /** A readable state names its phase, or '?' with progress 0 when there
      is no current phase (or it is 0); the phase name is "Unknown" off the
      table. */
  lemma {:induction false} ResumePhaseLine(s: State)
    ensures ResumePhase(s).None? ==>
      PhaseText(ResumePhase(s)) == "?" && ResumeProgress(s) == 0 && ResumePhaseName(ResumePhase(s)) == "Unknown"
    ensures ResumePhase(s).Some? ==> ResumeProgress(s) == ProgressOf(s, s.currentPhase.value)
    ensures ResumePhase(s).Some? && !(1 <= s.currentPhase.value <= 6) ==> ResumePhaseName(ResumePhase(s)) == "Unknown"
  {
  }
}
