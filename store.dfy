/** The files the scripts read and write under `.framework-blueprints`: the
    state document, the `backups` directory and the backup files in it. Every
    write is also appended to `effects`, so that the order of writes can be
    stated. */
module Store {
  import opened ProjectState

  datatype Effect =
    | MadeBackupDir
    | WroteBackup(path: string, snapshot: State)
    | WroteState(state: State)

  const BackupDir := ".framework-blueprints/backups"

  class Workspace {
    var stateDoc: StoredDoc
    var backupDirExists: bool
    /** Backup path to the state it holds. */
    var backups: map<string, State>
    var effects: seq<Effect>

    /** Backups are only ever written inside the existing backup directory. */
    ghost predicate Valid()
      reads this
    {
      backups != map[] ==> backupDirExists
    }

    constructor(doc: StoredDoc, dirExists: bool)
      ensures Valid()
      ensures stateDoc == doc && backupDirExists == dirExists
      ensures backups == map[] && effects == []
    {
      stateDoc := doc;
      backupDirExists := dirExists;
      backups := map[];
      effects := [];
    }

    /** `fs.mkdirSync(BACKUP_DIR, { recursive: true })`. */
    method MakeBackupDir()
      requires Valid()
      modifies this
      ensures Valid()
      ensures backupDirExists
      ensures stateDoc == old(stateDoc) && backups == old(backups)
      ensures effects == old(effects) + [MadeBackupDir]
    {
      backupDirExists := true;
      effects := effects + [MadeBackupDir];
    }

    /** `fs.writeFileSync(backupPath, ...)`: fails unless the directory
        exists, and replaces a backup of the same name. */
    method WriteBackup(path: string, snapshot: State)
      requires Valid() && backupDirExists
      modifies this
      ensures Valid()
      ensures backups == old(backups)[path := snapshot]
      ensures stateDoc == old(stateDoc) && backupDirExists == old(backupDirExists)
      ensures effects == old(effects) + [WroteBackup(path, snapshot)]
    {
      backups := backups[path := snapshot];
      effects := effects + [WroteBackup(path, snapshot)];
    }

    /** `fs.writeFileSync(STATE_FILE, ...)`. */
    method WriteState(s: State)
      requires Valid()
      modifies this
      ensures Valid()
      ensures stateDoc == Parsed(s)
      ensures backups == old(backups) && backupDirExists == old(backupDirExists)
      ensures effects == old(effects) + [WroteState(s)]
    {
      stateDoc := Parsed(s);
      effects := effects + [WroteState(s)];
    }
  }
}
