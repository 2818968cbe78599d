/** The project state document `.framework-blueprints/00-project-state.json`
    as the scripts read it. A key the document may lack is an `Option`; the
    JavaScript fallbacks `x || d` the scripts apply to these keys are defined
    here once. */
module ProjectState {
  import opened Wrappers
  import opened Text

  const BlueprintDir := ".framework-blueprints"
  const StateFile := ".framework-blueprints/00-project-state.json"

  /** One entry of `phases`. */
  datatype PhaseEntry = PhaseEntry(status: Option<string>, progress: Option<int>)

  /** One entry of `decisions`. */
  datatype Decision = Decision(id: Option<string>, topic: Option<string>, choice: Option<string>, source: Option<string>)

  /** One entry of `modules`: an object with `name`/`status`, or a bare string. */
  datatype ModuleEntry =
    | ModuleObject(name: Option<string>, status: Option<string>)
    | ModuleName(text: string)

  datatype CriticalDetails = CriticalDetails(
    envVars: Option<seq<string>>,
    nonStandardPaths: Option<map<string, string>>,
    apiQuirks: Option<seq<string>>)

  /** One entry of `checkpoints`; `phase` is absent when the state had no
      `currentPhase`. */
  datatype CheckpointRecord = CheckpointRecord(
    timestamp: string, description: string, backup: string, phase: Option<int>, progress: int)

  /** The document. `phases` is keyed by the phase number whose decimal
      rendering is the JSON key; `extra` holds every other top-level key with
      its JSON text, which no script interprets. */
  datatype State = State(
    projectName: Option<string>,
    version: Option<string>,
    currentPhase: Option<int>,
    phases: Option<map<int, PhaseEntry>>,
    decisions: Option<seq<Decision>>,
    modules: Option<seq<ModuleEntry>>,
    criticalDetails: Option<CriticalDetails>,
    checkpoints: Option<seq<CheckpointRecord>>,
    updatedAt: Option<string>,
    extra: map<string, string>)

  /** What reading the state file gives: no file, text `JSON.parse` rejects
      (with the parser's message), or a document. */
  datatype StoredDoc = Absent | Malformed(error: string) | Parsed(state: State)

  /** A string key is truthy in JavaScript when present and non-empty. */
  predicate Truthy(o: Option<string>) {
    o.Some? && o.value != ""
  }

  /** `o || fallback` for a string-valued key. */
  function StrOr(o: Option<string>, fallback: string): (r: string)
    ensures Truthy(o) ==> r == o.value
    ensures !Truthy(o) ==> r == fallback
  {
    if Truthy(o) then o.value else fallback
  }

  /** `state.phases?.[String(i)]`. */
  function PhaseAt(s: State, i: int): Option<PhaseEntry> {
    if s.phases.Some? && i in s.phases.value then Some(s.phases.value[i]) else None
  }

  /** `state.phases?.[String(i)]?.progress || 0`: a missing entry, a missing
      progress and a progress of 0 all give 0. */
  function ProgressOf(s: State, i: int): (p: int)
    ensures PhaseAt(s, i).None? ==> p == 0
    ensures PhaseAt(s, i).Some? ==> p == PhaseAt(s, i).value.progress.GetOr(0)
  {
    match PhaseAt(s, i)
    case None => 0
    case Some(e) => e.progress.GetOr(0)
  }

  /** `${x}` for a possibly absent number: `undefined` when absent. */
  function NumberText(o: Option<int>): string {
    match o
    case None => "undefined"
    case Some(n) => IntToString(n)
  }
}
