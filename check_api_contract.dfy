/** `check-api-contract.js`, a hook run before a file is written: when the
    target looks like source code and the API contracts document exists, it
    prints a reminder for the agent; it never blocks. */
module CheckApiContract {
  import opened Wrappers
  import opened Text
  import opened HookPayload

  const Reminder := "Reminder: API endpoints must match .framework-blueprints/03-api-planning/api-contracts.md. Verify endpoint paths, methods, and response schemas before writing."

  /** `JSON.stringify({ hookSpecificOutput: { additionalContext: Reminder } })`;
      the reminder holds no character JSON escapes. */
  const ReminderJson := "{\"hookSpecificOutput\":{\"additionalContext\":\"" + Reminder + "\"}}"

  datatype HookResult = HookResult(stdout: string, exitCode: int)

  /** `!filePath.includes('src/') && !filePath.includes('routes/')` is false. */
  predicate LooksLikeSource(target: TargetPath)
    requires !target.NoIncludes?
  {
    Includes(target, "src/") || Includes(target, "routes/")
  }

  /** The hook: no directory, no reading; then the guard chain. Every path
      out, the `catch` included, exits 0. */
  function ContractReminder(blueprintDirExists: bool, payload: Payload, contractsExist: bool): (r: HookResult)
    ensures r.exitCode == 0
    ensures r.stdout == "" || r.stdout == ReminderJson
    ensures r.stdout == ReminderJson <==>
      blueprintDirExists && payload.Payload? && !Target(payload.toolInput).NoIncludes?
      && LooksLikeSource(Target(payload.toolInput)) && contractsExist
  {
    if !blueprintDirExists then HookResult("", 0)
    else match payload
      case Unparsable => HookResult("", 0)
      case Payload(ti) =>
        var target := Target(ti);
        if target.NoIncludes? then HookResult("", 0)
        else if !Includes(target, "src/") && !Includes(target, "routes/") then HookResult("", 0)
        else if !contractsExist then HookResult("", 0)
        else HookResult(ReminderJson, 0)
  }

  /** Writing any file under `src/` reminds, when the contracts exist. */
  lemma {:induction false} ReminderForSourceFile(path: string)
    requires StartsWith(path, "src/")
    ensures ContractReminder(true, Payload(Some(ToolInput(Str(path), Missing))), true).stdout == ReminderJson
  {
  }

  /** An array holding the element "src/" passes the guard too, since
      arrays have an `includes` of their own. */
  lemma {:induction false} ReminderForArrayPath(items: seq<JsonField>)
    requires Str("src/") in items
    ensures ContractReminder(true, Payload(Some(ToolInput(Arr(items), Missing))), true).stdout == ReminderJson
  {
  }

  /** A path with no '/' in it, such as `README.md`, never reminds: both
      markers hold one. */
  lemma {:induction false} NoReminderWithoutSlash(path: string)
    requires forall k :: 0 <= k < |path| ==> path[k] != '/'
    ensures ContractReminder(true, Payload(Some(ToolInput(Missing, Str(path)))), true).stdout == ""
  {
    MissingCharNotContained(path, "src/", 3);
    MissingCharNotContained(path, "routes/", 6);
  }
}
