/** `state-summary.js`: the state document rendered as console lines, one
    string per `console.log` call. */
module StateSummary {
  import opened Wrappers
  import opened Text
  import opened ProjectState

  /** `phaseNames[n]` of the summary; undefined off the table. */
  function PhaseName(n: int): (r: Option<string>)
    ensures r.Some? <==> 1 <= n <= 6
  {
    if n == 1 then Some("Discovery")
    else if n == 2 then Some("Structure")
    else if n == 3 then Some("Planning")
    else if n == 4 then Some("Agent Assignment")
    else if n == 5 then Some("Execution")
    else if n == 6 then Some("Integration")
    else None
  }

  /** `phaseNames[state.currentPhase] || 'Unknown'`. */
  function CurrentPhaseName(current: Option<int>): string {
    match current
    case None => "Unknown"
    case Some(c) => PhaseName(c).GetOr("Unknown")
  }

  /** The status box of a phase line. */
  function Icon(status: string): string {
    if status == "completed" then "[x]"
    else if status == "in_progress" then "[~]"
    else "[ ]"
  }

  /** `phase?.status || 'pending'`. */
  function PhaseStatus(s: State, i: int): string {
    match PhaseAt(s, i)
    case None => "pending"
    case Some(e) => StrOr(e.status, "pending")
  }

  /** `${phaseNames[i]}` prints `undefined` off the table. */
  function PhaseLine(s: State, i: int): string {
    "  " + Icon(PhaseStatus(s, i)) + " Phase " + IntToString(i) + ": " + PhaseName(i).GetOr("undefined")
    + " (" + IntToString(ProgressOf(s, i)) + "%)"
  }

  /** The lines a counting loop prints for i, i + 1, .., n - 1. */
  function Lines(line: int -> string, i: int, n: int): (ls: seq<string>)
    ensures |ls| == if i < n then n - i else 0
    decreases n - i
  {
    if i >= n then [] else [line(i)] + Lines(line, i + 1, n)
  }

  lemma {:induction false} LinesAt(line: int -> string, i: int, n: int, j: int)
    requires i <= j < n
    ensures Lines(line, i, n)[j - i] == line(j)
    decreases j - i
  {
    if i < j {
      LinesAt(line, i + 1, n, j);
      assert Lines(line, i, n)[j - i] == Lines(line, i + 1, n)[j - (i + 1)];
    }
  }

  /** `for (let i = 1; i <= 6; i++)`. */
  function PhaseLines(s: State): seq<string> {
    Lines(i => PhaseLine(s, i), 1, 7)
  }

  /** `xs.slice(-5)`. */
  function LastFive<T>(xs: seq<T>): seq<T> {
    if |xs| <= 5 then xs else xs[|xs| - 5..]
  }

  function DecisionLine(d: Decision): string {
    "  - " + StrOr(d.id, "?") + ": " + StrOr(d.topic, StrOr(d.choice, "(no description)"))
  }

  function DecisionLines(ds: seq<Decision>): (ls: seq<string>)
    ensures |ls| == |ds|
    ensures forall k :: 0 <= k < |ds| ==> ls[k] == DecisionLine(ds[k])
  {
    if ds == [] then [] else [DecisionLine(ds[0])] + DecisionLines(ds[1..])
  }

  /** `m.name || m`: an object without a name renders as `[object Object]`,
      a bare string as itself. */
  function ModuleLabel(m: ModuleEntry): string {
    match m
    case ModuleObject(name, _) => if Truthy(name) then name.value else "[object Object]"
    case ModuleName(text) => text
  }

  /** `m.status || 'defined'`; a string has no status. */
  function ModuleStatus(m: ModuleEntry): string {
    match m
    case ModuleObject(_, status) => StrOr(status, "defined")
    case ModuleName(_) => "defined"
  }

  function ModuleLines(ms: seq<ModuleEntry>): (ls: seq<string>)
    ensures |ls| == |ms|
  {
    if ms == [] then [] else ["  - " + ModuleLabel(ms[0]) + ": " + ModuleStatus(ms[0])] + ModuleLines(ms[1..])
  }

  function DecisionSection(s: State): seq<string> {
    var ds := s.decisions.GetOr([]);
    if |ds| > 0 then ["\nDecisions: " + NatToString(|ds|)] + DecisionLines(LastFive(ds)) else []
  }

  function ModuleSection(s: State): seq<string> {
    var ms := s.modules.GetOr([]);
    if |ms| > 0 then ["\nModules: " + NatToString(|ms|)] + ModuleLines(ms) else []
  }

  function CriticalSection(s: State): seq<string> {
    match s.criticalDetails
    case None => []
    case Some(cd) =>
      var env := cd.envVars.GetOr([]);
      var paths := cd.nonStandardPaths.GetOr(map[]);
      var quirks := cd.apiQuirks.GetOr([]);
      (if |env| > 0 then ["\nEnvironment Variables: " + NatToString(|env|)] else [])
      + (if |paths| > 0 then ["Non-Standard Paths: " + NatToString(|paths|)] else [])
      + (if |quirks| > 0 then ["API Quirks: " + NatToString(|quirks|)] else [])
  }

  function CheckpointSection(s: State): seq<string> {
    var cs := s.checkpoints.GetOr([]);
    if |cs| > 0 then ["\nCheckpoints: " + NatToString(|cs|)] else []
  }

  function Header(s: State): seq<string> {
    ["\nProject: " + StrOr(s.projectName, "(unnamed)"),
     "Phase: " + NumberText(s.currentPhase) + " - " + CurrentPhaseName(s.currentPhase),
     "Updated: " + StrOr(s.updatedAt, "N/A"),
     "",
     "Phase Progress:"]
  }

  /** The optional sections after the phase lines, in print order. */
  function Sections(s: State): seq<string> {
    DecisionSection(s) + ModuleSection(s) + CriticalSection(s) + CheckpointSection(s)
  }

  /** The five header lines, the six phase lines, and every section after
      them as long as its content says. */
  function SummaryLines(s: State): (ls: seq<string>)
    ensures |ls| == 11 + |DecisionSection(s)| + |ModuleSection(s)| + |CriticalSection(s)| + |CheckpointSection(s)|
  {
    Header(s) + PhaseLines(s) + Sections(s)
  }

  /** What the script does: print, or die on a document that does not
      parse (exit code 1). */
  datatype Summary = Printed(lines: seq<string>, exitCode: int) | ParseCrash
  {
    /** The exit status: the one printed runs end with, or Node's 1 for the
        uncaught exception. */
    function Status(): int {
      if ParseCrash? then 1 else exitCode
    }
  }

  function Summarize(doc: StoredDoc): (r: Summary)
    ensures doc.Absent? <==> r == Printed(["No state file found."], 0)
    ensures doc.Malformed? <==> r.ParseCrash?
    ensures r.Printed? ==> r.exitCode == 0
    ensures r.Status() == if doc.Malformed? then 1 else 0
  {
    match doc
    case Absent => Printed(["No state file found."], 0)
    case Malformed(_) => ParseCrash
    case Parsed(s) => Printed(SummaryLines(s), 0)
  }

  /** The six lines after the header are the phase lines. */
  lemma {:induction false} SummaryMiddle(s: State, k: int)
    requires 5 <= k < 11
    ensures SummaryLines(s)[k] == PhaseLines(s)[k - 5]
  {
    MiddleIndex(Header(s), PhaseLines(s), Sections(s), k);
  }

  /** The loop prints phase i as its (i - 1)-th line. */
  lemma {:induction false} PhaseLinesAt(s: State, i: int)
    requires 1 <= i <= 6
    ensures PhaseLines(s)[i - 1] == PhaseLine(s, i)
  {
    LinesAt(j => PhaseLine(s, j), 1, 7, i);
  }

  /** Line 4 + i of the summary is the line of phase i. */
  lemma {:induction false} SummaryPhaseLine(s: State, i: int)
    requires 1 <= i <= 6
    ensures SummaryLines(s)[4 + i] == PhaseLine(s, i)
  {
    SummaryMiddle(s, 4 + i);
    PhaseLinesAt(s, i);
  }

  /** Indexing into the middle part of a three-part concatenation. */
  lemma {:induction false} MiddleIndex<T>(a: seq<T>, b: seq<T>, c: seq<T>, k: nat)
    requires |a| <= k < |a| + |b|
    ensures (a + b + c)[k] == b[k - |a|]
  {
  }

  /** The decisions section is absent for no decisions; otherwise it is
      the count and then at most the last five decisions, in order. */
  lemma {:induction false} DecisionSectionShape(s: State)
    ensures var ds := s.decisions.GetOr([]);
      (ds == [] <==> DecisionSection(s) == [])
      && (ds != [] ==>
        DecisionSection(s)[0] == "\nDecisions: " + NatToString(|ds|)
        && |DecisionSection(s)| == 1 + (if |ds| < 5 then |ds| else 5)
        && forall k :: 1 <= k < |DecisionSection(s)| ==>
             DecisionSection(s)[k] == DecisionLine(ds[|ds| - (|DecisionSection(s)| - 1) + (k - 1)])
      )
  {
  }

  /** The box is [x] exactly for "completed", [~] exactly for
      "in_progress", and [ ] for anything else, a missing status included. */
  lemma {:induction false} IconIff(s: State, i: int)
    ensures Icon(PhaseStatus(s, i)) == "[x]" <==>
      PhaseAt(s, i).Some? && PhaseAt(s, i).value.status == Some("completed")
    ensures Icon(PhaseStatus(s, i)) == "[~]" <==>
      PhaseAt(s, i).Some? && PhaseAt(s, i).value.status == Some("in_progress")
  {
    assert "[x]" != "[~]" && "[x]" != "[ ]" && "[~]" != "[ ]" by {
      assert "[x]"[1] != "[~]"[1] && "[x]"[1] != "[ ]"[1] && "[~]"[1] != "[ ]"[1];
    }
    assert "pending" != "completed" && "pending" != "in_progress" by {
      assert "pending"[0] != "completed"[0] && "pending"[0] != "in_progress"[0];
    }
  }
}
