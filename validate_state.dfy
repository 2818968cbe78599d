/** The state pass of `validate.js`: missing required keys, phases below the
    current one that are recorded but not completed, and decisions without a
    source, each counted once. */
module ValidateState {
  import opened Wrappers
  import opened ProjectState
  import opened PassResults

  const Required: seq<string> := ["projectName", "version", "currentPhase", "phases", "decisions", "modules"]

  /** `key in state`: membership of the key, whatever its value. */
  predicate HasKey(s: State, key: string) {
    if key == "projectName" then s.projectName.Some?
    else if key == "version" then s.version.Some?
    else if key == "currentPhase" then s.currentPhase.Some?
    else if key == "phases" then s.phases.Some?
    else if key == "decisions" then s.decisions.Some?
    else if key == "modules" then s.modules.Some?
    else if key == "criticalDetails" then s.criticalDetails.Some?
    else if key == "checkpoints" then s.checkpoints.Some?
    else if key == "updatedAt" then s.updatedAt.Some?
    else key in s.extra
  }

  /** The keys of `keys` the state lacks, in order. */
  function MissingIn(s: State, keys: seq<string>): seq<string>
    decreases |keys|
  {
    if keys == [] then []
    else
      var last := keys[|keys| - 1];
      MissingIn(s, keys[..|keys| - 1]) + (if HasKey(s, last) then [] else [last])
  }

  function MissingKeys(s: State): seq<string> {
    MissingIn(s, Required)
  }

  /** Phase `i` is recorded with a status other than "completed" (a missing
      status included). */
  predicate IsStale(s: State, i: int) {
    PhaseAt(s, i).Some? && PhaseAt(s, i).value.status != Some("completed")
  }

  /** The stale phases among 1 .. n-1, in increasing order. */
  function StaleBelow(s: State, n: int): seq<int>
    decreases n
  {
    if n <= 1 then []
    else StaleBelow(s, n - 1) + (if IsStale(s, n - 1) then [n - 1] else [])
  }

  /** With no `currentPhase` the loop `i < current` compares with
      `undefined` and never runs. */
  function StalePhases(s: State): seq<int> {
    match s.currentPhase
    case None => []
    case Some(current) => StaleBelow(s, current)
  }

  /** Indices below `n` of the decisions whose source is missing or empty. */
  function UnsourcedBelow(ds: seq<Decision>, n: nat): seq<nat>
    requires n <= |ds|
  {
    if n == 0 then []
    else UnsourcedBelow(ds, n - 1) + (if Truthy(ds[n - 1].source) then [] else [n - 1])
  }

  /** `(state.decisions || [])`: an absent list has no decisions. */
  function Decisions(s: State): seq<Decision> {
    s.decisions.GetOr([])
  }

  function Unsourced(s: State): seq<nat> {
    UnsourcedBelow(Decisions(s), |Decisions(s)|)
  }

  /** What the state pass counts. */
  function StateIssues(s: State): nat {
    |MissingKeys(s)| + |StalePhases(s)| + |Unsourced(s)|
  }

  /** The state pass as a whole: skipped without a state file, dead on a
      document that does not parse. */
  function StatePass(doc: StoredDoc): PassRun {
    match doc
    case Absent => Completed(Skipped)
    case Malformed(_) => Crashed
    case Parsed(s) => Completed(Verdict(StateIssues(s)))
  }

  /** The three loops of `validateState`, each adding one per finding. */
  method CountStateIssues(s: State) returns (issues: nat)
    ensures issues == StateIssues(s)
  {
    issues := 0;
    for k := 0 to |Required|
      invariant issues == |MissingIn(s, Required[..k])|
    {
      assert Required[..k + 1][..k] == Required[..k];
      if !HasKey(s, Required[k]) {
        issues := issues + 1;
      }
    }
    assert Required[..|Required|] == Required;

    var counted := issues;
    if s.currentPhase.Some? {
      var current := s.currentPhase.value;
      var i := 1;
      while i < current
        invariant 1 <= i <= if current < 1 then 1 else current
        invariant issues == counted + |StaleBelow(s, i)|
      {
        if IsStale(s, i) {
          issues := issues + 1;
        }
        i := i + 1;
      }
    }

    counted := issues;
    var ds := Decisions(s);
    for i := 0 to |ds|
      invariant issues == counted + |UnsourcedBelow(ds, i)|
    {
      if !Truthy(ds[i].source) {
        issues := issues + 1;
      }
    }
  }

  /** `validateState`: reads the stored document, then counts. */
  method RunStatePass(doc: StoredDoc) returns (r: PassRun)
    ensures r == StatePass(doc)
  {
    match doc
    case Absent =>
      r := Completed(Skipped);
    case Malformed(_) =>
      r := Crashed;
    case Parsed(s) =>
      var issues := CountStateIssues(s);
      r := Completed(Verdict(issues));
  }

  /** A key is reported missing exactly when it is required and absent. */
  lemma {:induction false} MissingInIff(s: State, keys: seq<string>, key: string)
    ensures key in MissingIn(s, keys) <==> key in keys && !HasKey(s, key)
    decreases |keys|
  {
    if keys != [] {
      var init := keys[..|keys| - 1];
      MissingInIff(s, init, key);
      assert keys == init + [keys[|keys| - 1]];
    }
  }

  /** Each missing key is reported once: over distinct keys the count is the
      number of absent ones. */
  lemma {:induction false} MissingInCount(s: State, keys: seq<string>)
    requires forall i, j :: 0 <= i < j < |keys| ==> keys[i] != keys[j]
    ensures |MissingIn(s, keys)| == |set k | k in keys && !HasKey(s, k)|
    decreases |keys|
  {
    if keys != [] {
      var init := keys[..|keys| - 1];
      var last := keys[|keys| - 1];
      MissingInCount(s, init);
      var before := set k | k in init && !HasKey(s, k);
      var after := set k | k in keys && !HasKey(s, k);
      assert keys == init + [last];
      assert last !in init;
      if HasKey(s, last) {
        assert after == before;
      } else {
        assert after == before + {last};
      }
    }
  }

  /** The missing-key count is the number of required keys absent. */
  lemma {:induction false} MissingKeysCount(s: State)
    ensures |MissingKeys(s)| == |set k | k in Required && !HasKey(s, k)|
    ensures forall k :: k in MissingKeys(s) <==> k in Required && !HasKey(s, k)
  {
    MissingInCount(s, Required);
    forall k
      ensures k in MissingKeys(s) <==> k in Required && !HasKey(s, k)
    {
      MissingInIff(s, Required, k);
    }
  }

  /** Strictly increasing, so no phase is counted twice. */
  predicate Increasing(xs: seq<int>) {
    forall i, j :: 0 <= i < j < |xs| ==> xs[i] < xs[j]
  }

  lemma {:induction false} StaleBelowIff(s: State, n: int, i: int)
    ensures i in StaleBelow(s, n) <==> 1 <= i < n && IsStale(s, i)
    ensures Increasing(StaleBelow(s, n))
    ensures forall k :: 0 <= k < |StaleBelow(s, n)| ==> StaleBelow(s, n)[k] < n
    decreases n
  {
    if n > 1 {
      StaleBelowIff(s, n - 1, i);
    }
  }

  /** A phase is counted iff it lies below the current one, is recorded, and
      is not completed; an absent entry never is. */
  lemma {:induction false} StalePhasesIff(s: State, i: int)
    ensures i in StalePhases(s) <==>
      s.currentPhase.Some? && 1 <= i < s.currentPhase.value && PhaseAt(s, i).Some? && PhaseAt(s, i).value.status != Some("completed")
    ensures Increasing(StalePhases(s))
  {
    if s.currentPhase.Some? {
      StaleBelowIff(s, s.currentPhase.value, i);
    }
  }

  lemma {:induction false} UnsourcedBelowIff(ds: seq<Decision>, n: nat, i: int)
    requires n <= |ds|
    ensures i in UnsourcedBelow(ds, n) <==> 0 <= i < n && !Truthy(ds[i].source)
    ensures forall k :: 0 <= k < |UnsourcedBelow(ds, n)| ==> UnsourcedBelow(ds, n)[k] < n
    ensures forall a, b :: 0 <= a < b < |UnsourcedBelow(ds, n)| ==> UnsourcedBelow(ds, n)[a] < UnsourcedBelow(ds, n)[b]
    decreases n
  {
    if n > 0 {
      UnsourcedBelowIff(ds, n - 1, i);
    }
  }

  /** A decision is counted iff its source is missing or empty, each once. */
  lemma {:induction false} UnsourcedIff(s: State, i: int)
    ensures i in Unsourced(s) <==> 0 <= i < |Decisions(s)| && !Truthy(Decisions(s)[i].source)
    ensures forall a, b :: 0 <= a < b < |Unsourced(s)| ==> Unsourced(s)[a] < Unsourced(s)[b]
  {
    UnsourcedBelowIff(Decisions(s), |Decisions(s)|, i);
  }

  /** The outcome of the pass: skip with nothing counted when the file is
      absent, and otherwise pass exactly when all three counts are zero. */
  lemma {:induction false} StatePassOutcome(doc: StoredDoc)
    ensures doc.Absent? ==> StatePass(doc) == Completed(PassResult(Skip, 0))
    ensures doc.Malformed? <==> StatePass(doc).Crashed?
    ensures doc.Parsed? ==>
      (StatePass(doc).Completed?
       && (StatePass(doc).result.status == Pass <==>
           MissingKeys(doc.state) == [] && StalePhases(doc.state) == [] && Unsourced(doc.state) == []))
  {
  }

  /** Current phase 3 with phase 1 completed and phase 2 pending: only
      phase 2 is counted. */
  lemma {:induction false} PhaseTwoPendingScenario(s: State)
    requires s.currentPhase == Some(3)
    requires PhaseAt(s, 1).Some? && PhaseAt(s, 1).value.status == Some("completed")
    requires PhaseAt(s, 2).Some? && PhaseAt(s, 2).value.status == Some("pending")
    ensures StalePhases(s) == [2]
  {
    assert "pending"[0] != "completed"[0];
    assert StaleBelow(s, 2) == [];
  }
}
