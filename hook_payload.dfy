/** The JSON a tool hook receives on stdin, reduced to what both hooks read:
    `tool_input.file_path` and `tool_input.filePath`. */
module HookPayload {
  import opened Wrappers
  import opened Text

  /** A JSON member as `x || y` sees it: absent, a string, an array (always
      truthy), or some other value, which is truthy or falsy (`0`, `false`,
      `null` are falsy). */
  datatype JsonField = Missing | Str(text: string) | Arr(items: seq<JsonField>) | Other(truthy: bool)

  predicate FieldTruthy(f: JsonField) {
    match f
    case Missing => false
    case Str(t) => t != ""
    case Arr(_) => true
    case Other(b) => b
  }

  datatype ToolInput = ToolInput(snakePath: JsonField, camelPath: JsonField)

  /** `Unparsable` is input `JSON.parse` rejects; `toolInput` is None when
      `tool_input` is absent or not an object. */
  datatype Payload = Unparsable | Payload(toolInput: Option<ToolInput>)

  /** The value `data.tool_input?.file_path || data.tool_input?.filePath || ''`
      yields: a string, an array, on which `includes` asks for an element
      equal to its argument and `endsWith` throws, or some other value, on
      which `includes` throws. */
  datatype TargetPath = PathText(path: string) | PathArray(items: seq<JsonField>) | NoIncludes

  /** `filePath.includes(needle)` on a string or an array. */
  predicate Includes(target: TargetPath, needle: string)
    requires !target.NoIncludes?
  {
    match target
    case PathText(p) => Contains(p, needle)
    case PathArray(items) => Str(needle) in items
  }

  function Target(ti: Option<ToolInput>): (r: TargetPath)
    ensures ti.None? ==> r == PathText("")
    ensures ti.Some? && FieldTruthy(ti.value.snakePath) ==>
      r == Chosen(ti.value.snakePath)
    ensures ti.Some? && !FieldTruthy(ti.value.snakePath) && FieldTruthy(ti.value.camelPath) ==>
      r == Chosen(ti.value.camelPath)
    ensures ti.Some? && !FieldTruthy(ti.value.snakePath) && !FieldTruthy(ti.value.camelPath) ==>
      r == PathText("")
  {
    match ti
    case None => PathText("")
    case Some(t) =>
      if FieldTruthy(t.snakePath) then Chosen(t.snakePath)
      else if FieldTruthy(t.camelPath) then Chosen(t.camelPath)
      else PathText("")
  }

  /** The chosen member as the later calls see it. */
  function Chosen(f: JsonField): TargetPath {
    match f
    case Str(text) => PathText(text)
    case Arr(items) => PathArray(items)
    case _ => NoIncludes
  }

  /** Whatever the fields hold, a text target is one of the two strings or
      the empty fallback, and the snake-case key wins when both are set. */
  lemma {:induction false} TargetIsAField(ti: ToolInput)
    ensures Target(Some(ti)).PathText? ==>
      Target(Some(ti)).path == "" || Str(Target(Some(ti)).path) in [ti.snakePath, ti.camelPath]
    ensures ti.snakePath.Str? && ti.snakePath.text != "" ==> Target(Some(ti)) == PathText(ti.snakePath.text)
  {
  }
}
