/** The part of the file system that a program-configuration save touches: three files, three
    flat directories and the save journal.

    Every system call is one atomic step that may be refused, and the process may stop just
    before any step.  A stopped process changes nothing more: `running` is false and every later
    call leaves the disk alone, so what a method promises about the disk on return also holds
    at every point where the process may have stopped.  */
module SaveDisk {
  import opened Wrappers

  type Content = string
  type Directory = map<string, Content>

  datatype FileName = Cfg | CfgTemp | CfgBackup
  datatype DirName = Env | EnvStage | EnvBackup
  datatype Phase = Prepared | OldMoved | NewInstalled
  datatype Journal =
    | Damaged
    | Entry(phase: Phase, hadCfg: bool, hadEnv: bool)
  {
    predicate Commits() {
      Entry? && phase == NewInstalled
    }
  }

  /** The configuration file and the environ directory. */
  datatype Pair = Pair(cfg: Option<Content>, env: Option<Directory>)

  function Installed(files: map<FileName, Content>, dirs: map<DirName, Directory>): Pair {
    Pair(Lookup(files, Cfg), Lookup(dirs, Env))
  }

  function Lookup<K, V>(m: map<K, V>, k: K): (r: Option<V>)
    ensures r == None <==> k !in m
  {
    if k in m then Some(m[k]) else None
  }

  /** The maps agree everywhere but at one key. */
  ghost predicate SameBut<K(!new), V>(after: map<K, V>, before: map<K, V>, key: K) {
    forall k :: k != key ==> Lookup(after, k) == Lookup(before, k)
  }

  class Disk {
    var files: map<FileName, Content>
    var dirs: map<DirName, Directory>
    var journal: Option<Journal>
    // false once the process has stopped
    var running: bool
    // what was installed each time a `NewInstalled` journal was put in place
    ghost var commits: seq<Pair>
    // no step stops the process, and only removals of `protectedFiles` and `protectedDirs` are refused
    const reliable: bool
    const protectedFiles: set<FileName>
    const protectedDirs: set<DirName>
    // a removal of anything else is never refused; only a stop can prevent it
    const removable: bool

    constructor (files: map<FileName, Content>, dirs: map<DirName, Directory>, journal: Option<Journal>,
                 reliable: bool, protectedFiles: set<FileName>, protectedDirs: set<DirName>, removable: bool)
      ensures this.files == files && this.dirs == dirs && this.journal == journal && running
      ensures this.reliable == reliable && this.removable == removable && commits == []
      ensures this.protectedFiles == protectedFiles && this.protectedDirs == protectedDirs
    {
      this.files, this.dirs, this.journal, running := files, dirs, journal, true;
      this.reliable, this.protectedFiles, this.protectedDirs := reliable, protectedFiles, protectedDirs;
      this.removable, commits := removable, [];
    }

    /** What resists deletion is known beforehand. */
    predicate Predictable() {
      reliable || removable
    }

    /** Nothing but a stop keeps the installed objects from being deleted. */
    predicate Deletes() {
      removable && Cfg !in protectedFiles && Env !in protectedDirs
    }

    /** Nothing but a stop keeps anything from being deleted. */
    predicate Tidies() {
      removable && protectedFiles == {} && protectedDirs == {}
    }

    /** Decides whether the next step takes place. */
    method Step() returns (ok: bool)
      modifies this`running
      ensures running ==> old(running)
      ensures ok ==> running
      ensures old(running) && reliable ==> ok
    {
      ok := running;
      if !reliable {
        if * { running := false; }
        if * { ok := false; }
        ok := ok && running;
      }
    }

    /** Decides whether the next removal takes place. */
    method RemovalStep() returns (ok: bool)
      modifies this`running
      ensures running ==> old(running)
      ensures ok ==> running
      ensures old(running) && reliable ==> ok
      ensures removable && running ==> ok
    {
      ok := Step();
      if removable { ok := running; }
    }

    /** The daemon is started again. */
    method Restart()
      modifies this`running
      ensures running
    {
      running := true;
    }

    /** A save derives its temporary and backup names from a new suffix.  They denote nothing yet;
        whatever lies under an older suffix is out of reach from now on. */
    method ChooseSuffix()
      modifies this`files, this`dirs
      ensures files == old(files) - {CfgTemp, CfgBackup} && dirs == old(dirs) - {EnvStage, EnvBackup}
    {
      files, dirs := files - {CfgTemp, CfgBackup}, dirs - {EnvStage, EnvBackup};
    }

    method Unlink(f: FileName) returns (ok: bool)
      modifies this`files, this`running
      ensures files == old(files) || files == old(files) - {f}
      ensures SameBut(files, old(files), f)
      ensures f in protectedFiles ==> files == old(files)
      ensures running ==> old(running)
      ensures old(running) && reliable ==> running && (f !in protectedFiles ==> f !in files)
      ensures removable && running && f !in protectedFiles ==> f !in files
    {
      ok := RemovalStep();
      if ok {
        ok := f in files && f !in protectedFiles;
        if ok { files := files - {f}; }
      }
    }

    method RenameFile(from: FileName, to: FileName) returns (ok: bool)
      requires from != to
      modifies this`files, this`running
      ensures ok ==> running && from in old(files) && files == old(files)[to := old(files)[from]] - {from}
      ensures !ok ==> files == old(files)
      ensures running ==> old(running)
      ensures old(running) && reliable ==> running && ok == (from in old(files))
    {
      ok := Step();
      if ok {
        ok := from in files;
        if ok { files := files[to := files[from]] - {from}; }
      }
    }

    /** A directory replaces a missing or empty directory only. */
    method RenameDir(from: DirName, to: DirName) returns (ok: bool)
      requires from != to
      modifies this`dirs, this`running
      ensures ok ==> running && from in old(dirs) && dirs == old(dirs)[to := old(dirs)[from]] - {from}
      ensures !ok ==> dirs == old(dirs)
      ensures running ==> old(running)
      ensures old(running) && reliable ==>
        running && ok == (from in old(dirs) && (to !in old(dirs) || old(dirs)[to] == map[]))
    {
      ok := Step();
      if ok {
        ok := from in dirs && (to !in dirs || dirs[to] == map[]);
        if ok { dirs := dirs[to := dirs[from]] - {from}; }
      }
    }

    method MakeDir(d: DirName) returns (ok: bool)
      modifies this`dirs, this`running
      ensures ok ==> running && d !in old(dirs) && dirs == old(dirs)[d := map[]]
      ensures !ok ==> dirs == old(dirs)
      ensures running ==> old(running)
      ensures old(running) && reliable ==> running && ok == (d !in old(dirs))
    {
      ok := Step();
      if ok {
        ok := d !in dirs;
        if ok { dirs := dirs[d := map[]]; }
      }
    }

    /** Unlinks the entries one by one, then the directory; no failure is reported. */
    method RemoveFlatDirectory(d: DirName)
      modifies this`dirs, this`running
      ensures SameBut(dirs, old(dirs), d)
      ensures d !in old(dirs) ==> dirs == old(dirs)
      ensures d in dirs ==> d in old(dirs) && dirs[d].Items <= old(dirs)[d].Items
      ensures d in protectedDirs ==> dirs == old(dirs)
      ensures running ==> old(running)
      ensures old(running) && reliable ==> running && (d !in protectedDirs ==> d !in dirs)
      ensures removable && running && d !in protectedDirs ==> d !in dirs
    {
      if d !in dirs { return; }
      var names := dirs[d].Keys;
      while names != {}
        invariant d in dirs && SameBut(dirs, old(dirs), d)
        invariant dirs[d].Items <= old(dirs)[d].Items
        invariant d in protectedDirs ==> dirs == old(dirs)
        invariant running ==> old(running)
        invariant old(running) && reliable ==> running
        invariant (reliable && old(running)) || (removable && running) ==> d in protectedDirs || dirs[d].Keys <= names
        decreases |names|
      {
        var name :| name in names;
        var ok := RemovalStep();
        if ok && d !in protectedDirs {
          dirs := dirs[d := dirs[d] - {name}];
        }
        names := names - {name};
      }
      var ok := RemovalStep();
      if ok && d !in protectedDirs && dirs[d] == map[] {
        dirs := dirs - {d};
      }
    }

    /** Writing through a stream is not atomic: a failed or interrupted write may leave any content behind. */
    method WriteFile(f: FileName, content: Content) returns (ok: bool)
      modifies this`files, this`running
      ensures ok ==> running && files == old(files)[f := content]
      ensures SameBut(files, old(files), f)
      ensures running ==> old(running)
      ensures old(running) && reliable ==> ok
    {
      var alive := running;
      ok := Step();
      if ok {
        files := files[f := content];
      } else if alive {
        if * {
          var torn: Content := *;
          files := files[f := torn];
        }
      }
    }

    method WriteEntry(d: DirName, name: string, content: Content) returns (ok: bool)
      requires d in dirs
      modifies this`dirs, this`running
      ensures ok ==> running && dirs == old(dirs)[d := old(dirs)[d][name := content]]
      ensures d in dirs && SameBut(dirs, old(dirs), d)
      ensures running ==> old(running)
      ensures old(running) && reliable ==> ok
    {
      var alive := running;
      ok := Step();
      if ok {
        dirs := dirs[d := dirs[d][name := content]];
      } else if alive {
        if * {
          var torn: Content := *;
          dirs := dirs[d := dirs[d][name := torn]];
        }
      }
    }

    /** The journal is replaced by one rename; the directory sync after it may still fail. */
    method WriteJournal(entry: Journal) returns (ok: bool)
      modifies this`journal, this`running, this`commits
      ensures
        || (!ok && journal == old(journal) && commits == old(commits))
        || (journal == Some(entry) &&
            commits == old(commits) + if entry.Commits() then [Installed(files, dirs)] else [])
      ensures ok ==> running
      ensures running ==> old(running)
      ensures old(running) && reliable ==> ok
    {
      ok := Step();
      if ok {
        journal := Some(entry);
        if entry.Commits() { commits := commits + [Installed(files, dirs)]; }
        ok := Step();
      }
    }

    method UnlinkJournal() returns (ok: bool)
      modifies this`journal, this`running
      ensures ok ==> running && journal == None
      ensures journal == old(journal) || journal == None
      ensures running ==> old(running)
      ensures old(running) && reliable ==> ok
      ensures removable && running ==> ok
    {
      ok := RemovalStep();
      if ok { journal := None; }
    }
  }
}
