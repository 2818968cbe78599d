/** `update-state-timestamp.js`, a hook run after a file is written: when a
    blueprint file other than the state document changed, the state's
    `updatedAt` is set to now. Errors are swallowed; it always exits 0. */
module UpdateStateTimestamp {
  import opened Wrappers
  import opened Text
  import opened ProjectState
  import opened HookPayload
  import opened Store

  /** The two guards on the written path: inside the blueprint directory,
      and not the state document itself (which would loop). */
  predicate ShouldRefresh(path: string) {
    Contains(path, ".framework-blueprints/") && !EndsWith(path, "00-project-state.json")
  }

  /** The hook on the workspace: without a state file it stops before
      reading input; a payload that does not parse, a path that is not a
      string, a path the guards reject or a state that does not parse
      change nothing. */
  method RefreshTimestamp(ws: Workspace, payload: Payload, now: string) returns (exitCode: int)
    requires ws.Valid()
    modifies ws
    ensures ws.Valid()
    ensures exitCode == 0
    ensures ws.backups == old(ws.backups) && ws.backupDirExists == old(ws.backupDirExists)
    ensures
      (old(ws.stateDoc).Parsed? && payload.Payload? && Target(payload.toolInput).PathText?
       && ShouldRefresh(Target(payload.toolInput).path))
      ==>
      var s := old(ws.stateDoc).state.(updatedAt := Some(now));
      ws.stateDoc == Parsed(s) && ws.effects == old(ws.effects) + [WroteState(s)]
    ensures
      !(old(ws.stateDoc).Parsed? && payload.Payload? && Target(payload.toolInput).PathText?
        && ShouldRefresh(Target(payload.toolInput).path))
      ==>
      ws.stateDoc == old(ws.stateDoc) && ws.effects == old(ws.effects)
  {
    exitCode := 0;
    if ws.stateDoc.Absent? {
      return;
    }
    if payload.Unparsable? {
      return;
    }
    var target := Target(payload.toolInput);
    if target.NoIncludes? {
      return;
    }
    if !Includes(target, ".framework-blueprints/") {
      return;
    }
    if target.PathArray? {
      // `endsWith` is not an array method: the call throws.
      return;
    }
    if EndsWith(target.path, "00-project-state.json") {
      return;
    }
    if ws.stateDoc.Malformed? {
      return;
    }
    var state := ws.stateDoc.state;
    state := state.(updatedAt := Some(now));
    ws.WriteState(state);
  }

  /** Refreshing is idempotent in everything but the time: a second refresh
      leaves the same state as one refresh at the later time, and no field
      other than `updatedAt` ever changes. */
  lemma {:induction false} RefreshOnlyTouchesUpdatedAt(s: State, t1: string, t2: string)
    ensures s.(updatedAt := Some(t1)).(updatedAt := Some(t2)) == s.(updatedAt := Some(t2))
    ensures s.(updatedAt := Some(t1)).(updatedAt := s.updatedAt) == s
  {
  }

  /** The state document's own path never triggers a refresh, wherever it
      lies. */
  lemma {:induction false} StateFileNeverRefreshes(dir: string)
    ensures !ShouldRefresh(dir + "00-project-state.json")
  {
    var p := dir + "00-project-state.json";
    assert p[|p| - |"00-project-state.json"|..] == "00-project-state.json";
  }
}
