/** `checkpoint.js`: copy the state document into a named backup, then
    append a checkpoint record to it and refresh `updatedAt`. The three
    clock readings of the script are parameters. */
module Checkpoint {
  import opened Wrappers
  import opened Text
  import opened ProjectState
  import opened Store

  /** `process.argv.slice(2).join(' ') || 'manual'`. */
  function Description(args: seq<string>): (d: string)
    ensures d != ""
    ensures Join(args, " ") != "" ==> d == Join(args, " ")
    ensures Join(args, " ") == "" ==> d == "manual"
  {
    var joined := Join(args, " ");
    if joined == "" then "manual" else joined
  }

  /** `toISOString().replace(/[:.]/g, '-')`. */
  function SanitizeStamp(t: string): (r: string)
    ensures |r| == |t|
    ensures forall k :: 0 <= k < |t| ==> r[k] == (if t[k] == ':' || t[k] == '.' then '-' else t[k])
  {
    if t == [] then []
    else [if t[0] == ':' || t[0] == '.' then '-' else t[0]] + SanitizeStamp(t[1..])
  }

  /** `replace(/\s+/g, '-')`: each run of spaces becomes one hyphen. */
  function CollapseSpaces(s: string): (r: string)
    ensures NoSpaces(r)
    ensures |r| <= |s|
    decreases |s|
  {
    if s == [] then []
    else if IsSpace(s[0]) then "-" + CollapseSpaces(s[SkipSpaces(s, 0)..])
    else [s[0]] + CollapseSpaces(s[1..])
  }

  /** `substring(0, n)`. */
  function Prefix(s: string, n: nat): (r: string)
    ensures |r| == if |s| < n then |s| else n
    ensures StartsWith(s, r)
  {
    if |s| <= n then s else s[..n]
  }

  /** The backup file name. */
  function BackupName(stamp: string, description: string): string {
    "state-" + SanitizeStamp(stamp) + "-" + Prefix(CollapseSpaces(description), 30) + ".json"
  }

  /** `path.join(BACKUP_DIR, backupName)`. */
  function BackupPath(name: string): string {
    BackupDir + "/" + name
  }

  /** `state.phases?.[String(state.currentPhase)]?.progress || 0`; with no
      current phase the key is "undefined", which names no phase. */
  function CurrentProgress(s: State): int {
    match s.currentPhase
    case None => 0
    case Some(c) => ProgressOf(s, c)
  }

  /** The record pushed onto `checkpoints`. */
  function NewRecord(s: State, at: string, description: string, backup: string): CheckpointRecord {
    CheckpointRecord(at, description, backup, s.currentPhase, CurrentProgress(s))
  }

  /** The state as written back: one record appended, `updatedAt`
      refreshed, everything else as read. */
  function WithCheckpoint(s: State, rec: CheckpointRecord, updated: string): State {
    s.(checkpoints := Some(s.checkpoints.GetOr([]) + [rec]), updatedAt := Some(updated))
  }

  /** How a run ends: no state file, an uncaught `JSON.parse` exception, an
      uncaught ENOENT from writing the backup, or a checkpoint taken. */
  datatype Outcome =
    | NoState
    | ParseFailure
    | BackupWriteFailure
    | Created(name: string, path: string, lines: seq<string>)
  {
    /** The lines printed on standard output; the exception's stack trace
        goes to standard error. */
    function Output(): seq<string> {
      match this
      case NoState => [NoStateMessage]
      case ParseFailure => []
      case BackupWriteFailure => []
      case Created(_, _, lines) => lines
    }

    /** `process.exit(0)`, Node's exit status 1 for an uncaught exception,
        and 0 when `main` returns. */
    function ExitCode(): int {
      if ParseFailure? || BackupWriteFailure? then 1 else 0
    }
  }

  const NoStateMessage := "No state file found. Nothing to checkpoint."

  /** `${x}` for a string key that may be absent. */
  function TextOf(o: Option<string>): string {
    o.GetOr("undefined")
  }

  /** The three lines printed after a checkpoint. */
  function CreatedLines(s: State, name: string, path: string): seq<string> {
    ["Checkpoint created: " + name,
     "Phase: " + NumberText(s.currentPhase) + ", Project: " + TextOf(s.projectName),
     "Backup: " + path]
  }

  /** `main`: nothing without a state file; the backup directory is made
      before the state is parsed, so a malformed state still leaves it
      behind; then the backup of the state as read, then the state with its
      new record. A '/' in the backup name puts the backup in a
      subdirectory of `backups` that nobody made, so `writeFileSync` throws
      and the state is left as it was. */
  method RunCheckpoint(ws: Workspace, args: seq<string>, nameClock: string, recordClock: string, updateClock: string)
    returns (outcome: Outcome)
    requires ws.Valid()
    modifies ws
    ensures ws.Valid()
    ensures old(ws.stateDoc).Absent? ==>
      outcome == NoState
      && ws.stateDoc == old(ws.stateDoc) && ws.backups == old(ws.backups)
      && ws.backupDirExists == old(ws.backupDirExists) && ws.effects == old(ws.effects)
    ensures !old(ws.stateDoc).Absent? ==> ws.backupDirExists
    ensures old(ws.stateDoc).Malformed? ==>
      outcome == ParseFailure && ws.stateDoc == old(ws.stateDoc) && ws.backups == old(ws.backups)
      && ws.effects == old(ws.effects) + (if old(ws.backupDirExists) then [] else [MadeBackupDir])
    ensures old(ws.stateDoc).Parsed? && '/' in BackupName(nameClock, Description(args)) ==>
      outcome == BackupWriteFailure && ws.stateDoc == old(ws.stateDoc) && ws.backups == old(ws.backups)
      && ws.effects == old(ws.effects) + (if old(ws.backupDirExists) then [] else [MadeBackupDir])
    ensures old(ws.stateDoc).Parsed? && '/' !in BackupName(nameClock, Description(args)) ==>
      var s := old(ws.stateDoc).state;
      var description := Description(args);
      var name := BackupName(nameClock, description);
      var path := BackupPath(name);
      var after := WithCheckpoint(s, NewRecord(s, recordClock, description, path), updateClock);
      outcome == Created(name, path, CreatedLines(after, name, path))
      && ws.backups == old(ws.backups)[path := s]
      && ws.stateDoc == Parsed(after)
      && ws.effects == old(ws.effects) + (if old(ws.backupDirExists) then [] else [MadeBackupDir])
                       + [WroteBackup(path, s), WroteState(after)]
    ensures old(ws.stateDoc).Parsed? && '/' !in BackupName(nameClock, Description(args)) ==>
      ws.stateDoc.Parsed? && ws.stateDoc.state.checkpoints.Some? && |ws.stateDoc.state.checkpoints.value| > 0
      && var last := ws.stateDoc.state.checkpoints.value[|ws.stateDoc.state.checkpoints.value| - 1];
      last.backup in ws.backups && ws.backups[last.backup] == old(ws.stateDoc).state
      && |ws.effects| >= 2
      && ws.effects[|ws.effects| - 2] == WroteBackup(last.backup, old(ws.stateDoc).state)
      && ws.effects[|ws.effects| - 1] == WroteState(ws.stateDoc.state)
    ensures outcome.Output() == [NoStateMessage] <==> old(ws.stateDoc).Absent?
    ensures outcome.ExitCode() == if outcome.ParseFailure? || outcome.BackupWriteFailure? then 1 else 0
    ensures outcome.ExitCode() == 1 <==>
      old(ws.stateDoc).Malformed? || (old(ws.stateDoc).Parsed? && '/' in BackupName(nameClock, Description(args)))
  {
    if ws.stateDoc.Absent? {
      return NoState;
    }
    if !ws.backupDirExists {
      ws.MakeBackupDir();
    }
    if ws.stateDoc.Malformed? {
      return ParseFailure;
    }
    var state := ws.stateDoc.state;
    var description := Description(args);
    var name := BackupName(nameClock, description);
    var path := BackupPath(name);
    if '/' in name {
      return BackupWriteFailure;
    }
    ws.WriteBackup(path, state);

    var checkpoints := state.checkpoints.GetOr([]);
    checkpoints := checkpoints + [NewRecord(state, recordClock, description, path)];
    state := state.(checkpoints := Some(checkpoints));
    state := state.(updatedAt := Some(updateClock));
    ws.WriteState(state);
    outcome := Created(name, path, CreatedLines(state, name, path));
    WithCheckpointChanges(old(ws.stateDoc).state, NewRecord(old(ws.stateDoc).state, recordClock, description, path), updateClock);
  }

  /** Writing back a checkpoint changes nothing but `checkpoints`, which
      gains exactly the new record at its end, and `updatedAt`. */
  lemma {:induction false} WithCheckpointChanges(s: State, rec: CheckpointRecord, updated: string)
    ensures var t := WithCheckpoint(s, rec, updated);
      t.checkpoints.Some?
      && |t.checkpoints.value| == |s.checkpoints.GetOr([])| + 1
      && t.checkpoints.value[..|s.checkpoints.GetOr([])|] == s.checkpoints.GetOr([])
      && t.checkpoints.value[|s.checkpoints.GetOr([])|] == rec
      && t.updatedAt == Some(updated)
      && t.(checkpoints := s.checkpoints, updatedAt := s.updatedAt) == s
  {
  }

  /** Two checkpoints add two records, in the order taken. */
  lemma {:induction false} TwoCheckpointsInOrder(s: State, r1: CheckpointRecord, u1: string, r2: CheckpointRecord, u2: string)
    ensures WithCheckpoint(WithCheckpoint(s, r1, u1), r2, u2).checkpoints == Some(s.checkpoints.GetOr([]) + [r1, r2])
  {
    assert s.checkpoints.GetOr([]) + [r1] + [r2] == s.checkpoints.GetOr([]) + [r1, r2];
  }

  /** Whitespace runs vanish from the name; text without any is kept as is. */
  lemma {:induction false} CollapseKeepsOtherText(s: string)
    requires NoSpaces(s)
    ensures CollapseSpaces(s) == s
    decreases |s|
  {
    if s != [] {
      assert NoSpaces(s[1..]);
      CollapseKeepsOtherText(s[1..]);
    }
  }

  /** The backup name holds a '/' exactly when the timestamp or the kept
      part of the description does: the fixed parts hold none. */
  lemma {:induction false} SlashInNameIff(stamp: string, description: string)
    ensures '/' in BackupName(stamp, description) <==>
      '/' in stamp || '/' in Prefix(CollapseSpaces(description), 30)
  {
    var sanitized := SanitizeStamp(stamp);
    assert '/' in sanitized <==> '/' in stamp by {
      if '/' in stamp {
        var k :| 0 <= k < |stamp| && stamp[k] == '/';
        assert sanitized[k] == '/';
      }
      if '/' in sanitized {
        var k :| 0 <= k < |sanitized| && sanitized[k] == '/';
        assert stamp[k] == '/';
      }
    }
  }

  /** A description such as "before src/api", two words the second of
      which holds a '/', fails to write its backup, whatever the time. */
  lemma {:induction false} SlashDescriptionFails(stamp: string, a: string, r: string)
    requires NoSpaces(a) && NoSpaces(r) && '/' in r
    requires |a| + 1 + |r| <= 30
    ensures '/' in BackupName(stamp, a + " " + r)
  {
    var d := a + " " + r;
    assert d == a + (" " + r);
    assert !IsSpace(r[0]);
    CollapseRun(" ", r);
    CollapseKeepsOtherText(r);
    CollapseKeepsPrefix(a, " " + r);
    var c := CollapseSpaces(d);
    assert c == a + ("-" + r);
    assert Prefix(c, 30) == c;
    SlashInNameIff(stamp, d);
  }

  /** Text without whitespace in front of the rest is kept as it is. */
  lemma {:induction false} CollapseKeepsPrefix(a: string, b: string)
    requires NoSpaces(a)
    ensures CollapseSpaces(a + b) == a + CollapseSpaces(b)
    decreases |a|
  {
    if a != [] {
      assert a + b == [a[0]] + (a[1..] + b);
      CollapseNonSpace(a[0], a[1..] + b);
      assert NoSpaces(a[1..]);
      CollapseKeepsPrefix(a[1..], b);
      calc {
        CollapseSpaces(a + b);
        [a[0]] + CollapseSpaces(a[1..] + b);
        [a[0]] + (a[1..] + CollapseSpaces(b));
        { assert [a[0]] + a[1..] == a; }
        a + CollapseSpaces(b);
      }
    } else {
      assert a + b == b;
    }
  }

  /** A run of whitespace, however long, becomes one hyphen. */
  lemma {:induction false} CollapseRun(w: string, b: string)
    requires w != [] && SpacesIn(w, 0, |w|)
    requires b == [] || !IsSpace(b[0])
    ensures CollapseSpaces(w + b) == "-" + CollapseSpaces(b)
  {
    var s := w + b;
    assert s[..|w|] == w && s[|w|..] == b;
    SpacesInSlice(s, 0, |w|, 0, |w|);
    SkipSpacesFrom(s, 0, |w|);
    assert IsSpace(w[0]);
  }

  /** Any other character is kept where it stands. */
  lemma {:induction false} CollapseNonSpace(c: char, b: string)
    requires !IsSpace(c)
    ensures CollapseSpaces([c] + b) == [c] + CollapseSpaces(b)
  {
    assert ([c] + b)[1..] == b;
  }

  /** The backup name starts `state-`, ends `.json`, and holds at most 30
      characters of the description. */
  lemma {:induction false} BackupNameShape(stamp: string, description: string)
    ensures StartsWith(BackupName(stamp, description), "state-")
    ensures EndsWith(BackupName(stamp, description), ".json")
    ensures |BackupName(stamp, description)| <= 6 + |stamp| + 1 + 30 + 5
  {
    var n := BackupName(stamp, description);
    assert n[..6] == "state-";
    assert n[|n| - 5..] == ".json";
  }

  /** The description's whitespace never reaches the backup name, which
      holds a space only if the timestamp does. */
  lemma {:induction false} BackupNameNoSpaces(stamp: string, description: string)
    requires NoSpaces(stamp)
    ensures NoSpaces(BackupName(stamp, description))
  {
    var sanitized := SanitizeStamp(stamp);
    var kept := Prefix(CollapseSpaces(description), 30);
    assert NoSpaces(sanitized) by {
      forall k | 0 <= k < |sanitized|
        ensures !IsSpace(sanitized[k])
      {
        assert sanitized[k] == '-' || sanitized[k] == stamp[k];
      }
    }
    assert NoSpaces(kept) by {
      assert kept == CollapseSpaces(description)[..|kept|];
    }
    NoSpacesConcat("state-", sanitized);
    NoSpacesConcat("state-" + sanitized, "-");
    NoSpacesConcat("state-" + sanitized + "-", kept);
    NoSpacesConcat("state-" + sanitized + "-" + kept, ".json");
  }

  /** Stamps of equal length that differ after sanitising give different
      backup names, whatever the descriptions. */
  lemma {:induction false} DistinctStampsDistinctNames(t1: string, t2: string, d1: string, d2: string)
    requires |t1| == |t2| && SanitizeStamp(t1) != SanitizeStamp(t2)
    ensures BackupName(t1, d1) != BackupName(t2, d2)
  {
    var k := DifferAt(SanitizeStamp(t1), SanitizeStamp(t2));
    BackupNameStampAt(t1, d1, k);
    BackupNameStampAt(t2, d2, k);
  }

  /** The sanitised stamp stands in the name right after "state-". */
  lemma {:induction false} BackupNameStampAt(stamp: string, description: string, k: nat)
    requires k < |stamp|
    ensures BackupName(stamp, description)[6 + k] == SanitizeStamp(stamp)[k]
  {
    SecondPartIndex("state-", SanitizeStamp(stamp), "-", Prefix(CollapseSpaces(description), 30), ".json", k);
  }

  /** Two different sequences of one length differ at some index. */
  lemma {:induction false} DifferAt<T>(a: seq<T>, b: seq<T>) returns (k: nat)
    requires |a| == |b| && a != b
    ensures k < |a| && a[k] != b[k]
  {
    assert !forall i :: 0 <= i < |a| ==> a[i] == b[i];
    k :| k < |a| && a[k] != b[k];
  }

  /** Indexing into the second part of a five-part concatenation. */
  lemma {:induction false} SecondPartIndex<T>(a: seq<T>, b: seq<T>, c: seq<T>, d: seq<T>, e: seq<T>, k: nat)
    requires k < |b|
    ensures (a + b + c + d + e)[|a| + k] == b[k]
  {
  }
}
