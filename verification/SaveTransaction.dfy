/** save_prog_cfg and recover_prog_cfg_save: the journaled swap of the configuration file and the
    environ directory.

    `Logical` is the pair of objects that the disk stands for: what is installed when no save is
    being rolled back, and what a rollback would put back otherwise.  Every step of a save and of a
    recovery keeps it, except the one that writes the `NewInstalled` journal and, if an object that
    did not exist before the save could not be deleted, the one that drops the journal of a rollback. */
module SaveTransaction {
  import opened Wrappers
  import opened SaveDisk

  predicate RollsBack(journal: Option<Journal>) {
    journal.Some? && journal.value.Entry? && journal.value.phase != NewInstalled
  }

  /** What a rollback leaves: the backup if there is one, else the object itself if it existed before. */
  function Original<T>(backup: Option<T>, current: Option<T>, had: bool): Option<T> {
    if backup.Some? then backup else if had then current else None
  }

  predicate Restorable<T>(backup: Option<T>, current: Option<T>, had: bool) {
    if had then backup.Some? || current.Some? else backup.None?
  }

  function OriginalCfg(files: map<FileName, Content>, had: bool): Option<Content> {
    Original(Lookup(files, CfgBackup), Lookup(files, Cfg), had)
  }

  function OriginalEnv(dirs: map<DirName, Directory>, had: bool): Option<Directory> {
    Original(Lookup(dirs, EnvBackup), Lookup(dirs, Env), had)
  }

  function Logical(files: map<FileName, Content>, dirs: map<DirName, Directory>, journal: Option<Journal>): Pair {
    if RollsBack(journal)
    then Pair(OriginalCfg(files, journal.value.hadCfg), OriginalEnv(dirs, journal.value.hadEnv))
    else Installed(files, dirs)
  }

  function StandsFor(d: Disk): Pair
    reads d
  {
    Logical(d.files, d.dirs, d.journal)
  }

  /** Nothing a recovery needs is missing, and there is no backup of an object that did not exist. */
  predicate Sound(files: map<FileName, Content>, dirs: map<DirName, Directory>, journal: Option<Journal>) {
    journal.Some? && journal.value.Entry? ==>
      var e := journal.value;
      if e.phase == NewInstalled then Cfg in files && Env in dirs
      else
        && Restorable(Lookup(files, CfgBackup), Lookup(files, Cfg), e.hadCfg)
        && Restorable(Lookup(dirs, EnvBackup), Lookup(dirs, Env), e.hadEnv)
  }

  /** Nothing but the installed objects is left. */
  predicate Tidy(files: map<FileName, Content>, dirs: map<DirName, Directory>) {
    CfgTemp !in files && CfgBackup !in files && EnvStage !in dirs && EnvBackup !in dirs
  }

  /** The rollback has to delete an object that the save created, and nobody checks that it does. */
  predicate CfgExposed(files: map<FileName, Content>, journal: Option<Journal>) {
    RollsBack(journal) && !journal.value.hadCfg && Cfg in files
  }

  predicate EnvExposed(dirs: map<DirName, Directory>, journal: Option<Journal>) {
    RollsBack(journal) && !journal.value.hadEnv && Env in dirs
  }

  /** What may be left of a directory after some of its entries were deleted. */
  predicate PartOf(after: Option<Directory>, before: Option<Directory>) {
    after.Some? ==> before.Some? && after.value.Items <= before.value.Items
  }

  /** The old environ directory cannot be put back because the new one neither goes away nor is empty. */
  predicate EnvStuck(d: Disk)
    reads d`dirs
  {
    EnvBackup in d.dirs && Env in d.dirs && d.dirs[Env] != map[] && Env in d.protectedDirs
  }

  /** Taking the journal away keeps the pair exactly when no object waits to be deleted or put back. */
  lemma DroppingJournal(files: map<FileName, Content>, dirs: map<DirName, Directory>, journal: Option<Journal>)
    requires Sound(files, dirs, journal)
    requires CfgBackup !in files && EnvBackup !in dirs
    ensures Logical(files, dirs, None) == Logical(files, dirs, journal)
      <==> !CfgExposed(files, journal) && !EnvExposed(dirs, journal)
  {}

  method RestoreCfg(d: Disk, had: bool) returns (ok: bool)
    requires Restorable(Lookup(d.files, CfgBackup), Lookup(d.files, Cfg), had)
    modifies d`files, d`running
    ensures OriginalCfg(d.files, had) == old(OriginalCfg(d.files, had))
    ensures Restorable(Lookup(d.files, CfgBackup), Lookup(d.files, Cfg), had)
    ensures ok ==> CfgBackup !in d.files
    ensures CfgBackup !in old(d.files) ==> CfgBackup !in d.files
    ensures !had && Cfg in d.files ==> Cfg in old(d.files)
    ensures ok && had ==> Lookup(d.files, Cfg) == OriginalCfg(d.files, had)
    ensures CfgBackup !in old(d.files) && !had && Cfg in d.protectedFiles ==> d.files == old(d.files)
    ensures d.running ==> old(d.running)
    ensures old(d.running) && d.reliable ==> d.running && ok
    ensures old(d.running) && d.reliable && Cfg !in d.protectedFiles ==>
      Lookup(d.files, Cfg) == OriginalCfg(d.files, had)
    ensures ok && d.Predictable() && d.running && Cfg !in d.protectedFiles ==>
      Lookup(d.files, Cfg) == OriginalCfg(d.files, had)
    ensures !had ==> Lookup(d.files, Cfg) in {None, old(Lookup(d.files, Cfg))}
  {
    if CfgBackup in d.files {
      var _ := d.Unlink(Cfg);
      ok := d.RenameFile(CfgBackup, Cfg);
    } else {
      if !had {
        var _ := d.Unlink(Cfg);
      }
      ok := !had || Cfg in d.files;
    }
  }

  method RestoreEnv(d: Disk, had: bool) returns (ok: bool)
    requires Restorable(Lookup(d.dirs, EnvBackup), Lookup(d.dirs, Env), had)
    modifies d`dirs, d`running
    ensures OriginalEnv(d.dirs, had) == old(OriginalEnv(d.dirs, had))
    ensures Restorable(Lookup(d.dirs, EnvBackup), Lookup(d.dirs, Env), had)
    ensures ok ==> EnvBackup !in d.dirs
    ensures EnvBackup !in old(d.dirs) ==> EnvBackup !in d.dirs
    ensures Env in d.dirs && Lookup(d.dirs, Env) != OriginalEnv(d.dirs, had) ==>
      Env in old(d.dirs) && d.dirs[Env].Items <= old(d.dirs)[Env].Items
    ensures ok && had ==> Lookup(d.dirs, Env) == OriginalEnv(d.dirs, had)
    ensures EnvBackup !in old(d.dirs) && !had && Env in d.protectedDirs ==> d.dirs == old(d.dirs)
    ensures d.running ==> old(d.running)
    ensures old(d.running) && d.reliable ==> d.running
    ensures old(d.running) && d.reliable && Env !in d.protectedDirs ==>
      ok && Lookup(d.dirs, Env) == OriginalEnv(d.dirs, had)
    ensures old(d.running) && d.reliable && EnvBackup !in old(d.dirs) ==> ok
    ensures ok && d.Predictable() && d.running && Env !in d.protectedDirs ==>
      Lookup(d.dirs, Env) == OriginalEnv(d.dirs, had)
    ensures old(d.running) && d.reliable ==> ok == !old(EnvStuck(d))
    ensures !had ==> PartOf(Lookup(d.dirs, Env), old(Lookup(d.dirs, Env)))
  {
    if EnvBackup in d.dirs {
      d.RemoveFlatDirectory(Env);
      ok := d.RenameDir(EnvBackup, Env);
    } else {
      if !had { d.RemoveFlatDirectory(Env); }
      ok := !had || Env in d.dirs;
    }
  }

  /** recover_prog_cfg_save.  Whatever is refused and wherever it stops, it keeps the logical pair,
      with one exception: when an object that did not exist before the save has to be deleted and the
      deletion fails, the journal is dropped all the same. */
  method Recover(d: Disk) returns (ok: bool)
    requires Sound(d.files, d.dirs, d.journal)
    modifies d`files, d`dirs, d`journal, d`running
    ensures Sound(d.files, d.dirs, d.journal)
    ensures ok ==> d.running && d.journal == None
    ensures d.journal == old(d.journal) || d.journal == None
    ensures old(d.journal) == Some(Damaged) ==>
      !ok && d.files == old(d.files) && d.dirs == old(d.dirs) && d.journal == old(d.journal)
    ensures old(d.journal) == None ==> ok == old(d.running) && d.files == old(d.files) && d.dirs == old(d.dirs)
    // every stopped or refused attempt, and every rollback with nothing exposed, keeps the pair
    ensures d.journal.Some? ==>
      StandsFor(d) == old(StandsFor(d))
    ensures !old(CfgExposed(d.files, d.journal)) ==>
      StandsFor(d).cfg == old(StandsFor(d)).cfg
    ensures !old(EnvExposed(d.dirs, d.journal)) ==>
      StandsFor(d).env == old(StandsFor(d)).env
    // where it is known what resists deletion, an object of the pair is lost if and only if the journal
    // goes while that object resists and should not be there
    ensures d.Predictable() && RollsBack(old(d.journal)) ==>
      (StandsFor(d).cfg == old(StandsFor(d)).cfg <==>
        !(d.journal == None && Cfg in d.protectedFiles && old(CfgExposed(d.files, d.journal))))
    ensures d.Predictable() && RollsBack(old(d.journal)) ==>
      (StandsFor(d).env == old(StandsFor(d)).env <==>
        !(d.journal == None && Env in d.protectedDirs && old(EnvExposed(d.dirs, d.journal))))
    // without stops and other refusals: what the recovery reports and what becomes of the pair, told
    // from the disk beforehand
    ensures old(d.running) && d.reliable && old(d.journal) != Some(Damaged) ==>
      ok == !(RollsBack(old(d.journal)) && old(EnvStuck(d)))
    ensures old(d.running) && d.reliable && old(d.journal) != Some(Damaged) ==>
      (StandsFor(d).cfg == old(StandsFor(d)).cfg <==>
        old(EnvStuck(d)) || !(Cfg in d.protectedFiles && old(CfgExposed(d.files, d.journal))))
    ensures old(d.running) && d.reliable && old(d.journal) != Some(Damaged) ==>
      (StandsFor(d).env == old(StandsFor(d)).env <==>
        !(Env in d.protectedDirs && old(EnvExposed(d.dirs, d.journal))))
    // what can be left of an object that should not be there
    ensures RollsBack(old(d.journal)) && !old(d.journal).value.hadCfg ==>
      && Lookup(d.files, Cfg) in {None, old(Lookup(d.files, Cfg))}
      && (Cfg in d.protectedFiles ==> Lookup(d.files, Cfg) == old(Lookup(d.files, Cfg)))
    ensures RollsBack(old(d.journal)) && !old(d.journal).value.hadEnv ==>
      && PartOf(Lookup(d.dirs, Env), old(Lookup(d.dirs, Env)))
      && (Env in d.protectedDirs ==> Lookup(d.dirs, Env) == old(Lookup(d.dirs, Env)))
    ensures d.running ==> old(d.running)
    // the same, in the terms in which starts are joined
    ensures CfgAfter(old(ImageOf(d)), ImageOf(d), d.Predictable(), Cfg in d.protectedFiles)
    ensures EnvAfter(old(ImageOf(d)), ImageOf(d), d.Predictable(), Env in d.protectedDirs)
    // a completed recovery leaves nothing behind
    ensures ok && d.Tidies() && old(d.journal) != None ==> Tidy(d.files, d.dirs)
  {
    if !d.running { return false; }
    if d.journal == None { return true; }
    if d.journal.value.Damaged? { return false; }
    var entry := d.journal.value;
    if entry.phase == NewInstalled {
      ok := RecoverCommitted(d);
    } else {
      ok := RollBack(d, entry.hadCfg, entry.hadEnv);
    }
  }

  /** The common tail of a recovery. */
  method FinishRecovery(d: Disk, restored: bool) returns (ok: bool)
    modifies d`files, d`dirs, d`journal, d`running
    ensures Lookup(d.files, Cfg) == old(Lookup(d.files, Cfg))
    ensures Lookup(d.files, CfgBackup) == old(Lookup(d.files, CfgBackup))
    ensures Lookup(d.dirs, Env) == old(Lookup(d.dirs, Env))
    ensures Lookup(d.dirs, EnvBackup) == old(Lookup(d.dirs, EnvBackup))
    ensures d.journal == old(d.journal) || (restored && d.journal == None)
    ensures ok ==> restored && d.running && d.journal == None
    ensures !old(d.running) ==> d.journal == old(d.journal)
    ensures old(d.running) && d.reliable ==> ok == restored
    ensures d.running ==> old(d.running)
    ensures ok && d.Tidies() ==> Lookup(d.files, CfgTemp) == None && Lookup(d.dirs, EnvStage) == None
  {
    var _ := d.Unlink(CfgTemp);
    d.RemoveFlatDirectory(EnvStage);
    var synced := d.Step();
    if !restored || !synced { return false; }
    var unlinked := d.UnlinkJournal();
    if !unlinked { return false; }
    ok := d.Step();
  }

  method RecoverCommitted(d: Disk) returns (ok: bool)
    requires d.running && d.journal.Some? && d.journal.value.Entry? && d.journal.value.phase == NewInstalled
    requires Sound(d.files, d.dirs, d.journal)
    modifies d`files, d`dirs, d`journal, d`running
    ensures Sound(d.files, d.dirs, d.journal)
    ensures Installed(d.files, d.dirs) == old(Installed(d.files, d.dirs))
    ensures d.journal == old(d.journal) || d.journal == None
    ensures ok ==> d.running && d.journal == None
    ensures ok && d.Tidies() ==> Tidy(d.files, d.dirs)
    ensures d.reliable ==> ok
  {
    if Cfg !in d.files || Env !in d.dirs { return false; }
    var _ := d.Unlink(CfgBackup);
    d.RemoveFlatDirectory(EnvBackup);
    ok := FinishRecovery(d, true);
  }

  method RollBack(d: Disk, hadCfg: bool, hadEnv: bool) returns (ok: bool)
    requires d.running && RollsBack(d.journal)
    requires d.journal.value.hadCfg == hadCfg && d.journal.value.hadEnv == hadEnv
    requires Sound(d.files, d.dirs, d.journal)
    modifies d`files, d`dirs, d`journal, d`running
    ensures Sound(d.files, d.dirs, d.journal)
    ensures d.journal == old(d.journal) || d.journal == None
    ensures ok ==> d.running && d.journal == None
    ensures d.journal.Some? ==>
      StandsFor(d) == old(StandsFor(d))
    ensures !old(CfgExposed(d.files, d.journal)) ==>
      StandsFor(d).cfg == old(StandsFor(d)).cfg
    ensures !old(EnvExposed(d.dirs, d.journal)) ==>
      StandsFor(d).env == old(StandsFor(d)).env
    ensures d.Predictable() ==>
      (StandsFor(d).cfg == old(StandsFor(d)).cfg <==>
        !(d.journal == None && Cfg in d.protectedFiles && old(CfgExposed(d.files, d.journal))))
    ensures d.Predictable() ==>
      (StandsFor(d).env == old(StandsFor(d)).env <==>
        !(d.journal == None && Env in d.protectedDirs && old(EnvExposed(d.dirs, d.journal))))
    ensures d.reliable ==> ok == !old(EnvStuck(d)) == (d.journal == None)
    ensures !hadCfg ==>
      && Lookup(d.files, Cfg) in {None, old(Lookup(d.files, Cfg))}
      && (Cfg in d.protectedFiles ==> Lookup(d.files, Cfg) == old(Lookup(d.files, Cfg)))
    ensures !hadEnv ==>
      && PartOf(Lookup(d.dirs, Env), old(Lookup(d.dirs, Env)))
      && (Env in d.protectedDirs ==> Lookup(d.dirs, Env) == old(Lookup(d.dirs, Env)))
    ensures ok && d.Tidies() ==> Tidy(d.files, d.dirs)
  {
    var cfgOk := RestoreCfg(d, hadCfg);
    var envOk := RestoreEnv(d, hadEnv);
    assert !old(CfgExposed(d.files, d.journal)) && cfgOk ==> Lookup(d.files, Cfg) == OriginalCfg(d.files, hadCfg);
    assert !old(EnvExposed(d.dirs, d.journal)) && envOk ==> Lookup(d.dirs, Env) == OriginalEnv(d.dirs, hadEnv);
    ok := FinishRecovery(d, cfgOk && envOk);
  }

  /** The environ files of a save, one per program. */
  function EnvFiles(entries: seq<(string, Content)>): Directory {
    if entries == [] then map[]
    else EnvFiles(entries[..|entries| - 1])[entries[|entries| - 1].0 + ".yaml" := entries[|entries| - 1].1]
  }

  /** No later entry is for the same program. */
  ghost predicate LastOfName(entries: seq<(string, Content)>, i: nat) {
    i < |entries| && forall j :: i < j < |entries| ==> entries[j].0 != entries[i].0
  }

  /** Every program has its own environment under its own name. */
  lemma {:induction false} EnvFilesHold(entries: seq<(string, Content)>, i: nat)
    requires LastOfName(entries, i)
    ensures Lookup(EnvFiles(entries), entries[i].0 + ".yaml") == Some(entries[i].1)
  {
    var last := |entries| - 1;
    if i < last {
      EnvFilesHold(entries[..last], i);
      SameFile(entries[i].0, entries[last].0);
    }
  }

  /** Nothing else is in the directory. */
  lemma {:induction false} EnvFilesOnly(entries: seq<(string, Content)>, file: string) returns (i: nat)
    requires file in EnvFiles(entries)
    ensures LastOfName(entries, i) && file == entries[i].0 + ".yaml" && EnvFiles(entries)[file] == entries[i].1
  {
    var last := |entries| - 1;
    if file == entries[last].0 + ".yaml" {
      i := last;
    } else {
      i := EnvFilesOnly(entries[..last], file);
    }
  }

  lemma SameFile(a: string, b: string)
    ensures a + ".yaml" == b + ".yaml" <==> a == b
  {
    if a + ".yaml" == b + ".yaml" {
      assert a == (a + ".yaml")[..|a|] && b == (b + ".yaml")[..|b|];
    }
  }

  /** Builds the new environ directory and the new configuration beside the installed ones. */
  method Stage(d: Disk, cfg: Content, entries: seq<(string, Content)>) returns (ok: bool)
    requires CfgBackup !in d.files && EnvBackup !in d.dirs && EnvStage !in d.dirs
    modifies d`files, d`dirs, d`running
    ensures Installed(d.files, d.dirs) == old(Installed(d.files, d.dirs))
    ensures Lookup(d.files, CfgBackup) == None && Lookup(d.dirs, EnvBackup) == None
    ensures ok ==> d.running && Lookup(d.files, CfgTemp) == Some(cfg)
    ensures ok ==> Lookup(d.dirs, EnvStage) == Some(EnvFiles(entries))
    ensures d.running ==> old(d.running)
    ensures old(d.running) && d.reliable ==> ok
  {
    d.RemoveFlatDirectory(EnvStage);
    d.RemoveFlatDirectory(EnvBackup);
    var _ := d.Unlink(CfgBackup);
    ok := d.MakeDir(EnvStage);
    if !ok { return; }
    ok := StageEntries(d, entries);
    if !ok { return; }
    ok := StageCfg(d, cfg);
    if !ok { d.RemoveFlatDirectory(EnvStage); }
  }

  method StageCfg(d: Disk, cfg: Content) returns (ok: bool)
    modifies d`files, d`running
    ensures SameBut(d.files, old(d.files), CfgTemp)
    ensures ok ==> d.running && Lookup(d.files, CfgTemp) == Some(cfg)
    ensures d.running ==> old(d.running)
    ensures old(d.running) && d.reliable ==> ok
  {
    ok := d.WriteFile(CfgTemp, cfg);
    if ok { ok := d.Step(); }
    if !ok { var _ := d.Unlink(CfgTemp); }
  }

  method StageEntries(d: Disk, entries: seq<(string, Content)>) returns (ok: bool)
    requires Lookup(d.dirs, EnvStage) == Some(map[])
    modifies d`dirs, d`running
    ensures d.running ==> old(d.running)
    ensures SameBut(d.dirs, old(d.dirs), EnvStage)
    ensures ok ==> d.running && Lookup(d.dirs, EnvStage) == Some(EnvFiles(entries))
    ensures old(d.running) && d.reliable ==> ok
  {
    for i := 0 to |entries|
      invariant Lookup(d.dirs, EnvStage) == Some(EnvFiles(entries[..i]))
      invariant SameBut(d.dirs, old(d.dirs), EnvStage)
      invariant d.running ==> old(d.running)
      invariant old(d.running) && d.reliable ==> d.running
    {
      assert entries[..i + 1][..i] == entries[..i];
      ok := d.WriteEntry(EnvStage, entries[i].0 + ".yaml", entries[i].1);
      if ok { ok := d.Step(); }
      if !ok {
        d.RemoveFlatDirectory(EnvStage);
        return;
      }
    }
    assert entries[..|entries|] == entries;
    ok := d.Step();
    if !ok { d.RemoveFlatDirectory(EnvStage); }
  }

  /** The swap itself.  Before the `NewInstalled` journal the disk stands for the old pair, from
      then on for the new one, wherever the process stops and whatever is refused. */
  method Install(d: Disk) returns (ok: bool, ghost committed: bool)
    requires d.running && d.journal == None && CfgBackup !in d.files && EnvBackup !in d.dirs
    requires CfgTemp in d.files && EnvStage in d.dirs
    modifies d
    ensures Sound(d.files, d.dirs, d.journal)
    ensures StandsFor(d) ==
      if committed then Pair(Some(old(d.files)[CfgTemp]), Some(old(d.dirs)[EnvStage]))
      else old(Installed(d.files, d.dirs))
    ensures d.commits == old(d.commits) +
      if committed then [Pair(Some(old(d.files)[CfgTemp]), Some(old(d.dirs)[EnvStage]))] else []
    ensures committed <==> ok || (d.journal.Some? && !RollsBack(d.journal))
    ensures committed ==> !RollsBack(d.journal)
    ensures RollsBack(d.journal) ==>
      d.journal.value.hadCfg == (Cfg in old(d.files)) && d.journal.value.hadEnv == (Env in old(d.dirs))
    ensures d.journal != Some(Damaged)
    ensures CfgExposed(d.files, d.journal) ==> Lookup(d.files, Cfg) == old(Lookup(d.files, CfgTemp))
    ensures EnvExposed(d.dirs, d.journal) ==> Lookup(d.dirs, Env) == old(Lookup(d.dirs, EnvStage))
    ensures ok ==> committed
    ensures ok && d.running && d.Tidies() ==> d.journal == None && Tidy(d.files, d.dirs)
    ensures d.reliable ==> ok
  {
    committed := false;
    var hadCfg, hadEnv := Cfg in d.files, Env in d.dirs;
    ok := SwapIn(d, hadCfg, hadEnv);
    if !ok { return; }
    ok, committed := Commit(d, hadCfg, hadEnv);
  }

  /** Everything up to the `NewInstalled` journal. */
  method SwapIn(d: Disk, hadCfg: bool, hadEnv: bool) returns (ok: bool)
    requires d.running && d.journal == None && CfgBackup !in d.files && EnvBackup !in d.dirs
    requires CfgTemp in d.files && EnvStage in d.dirs
    requires hadCfg == (Cfg in d.files) && hadEnv == (Env in d.dirs)
    modifies d
    ensures Sound(d.files, d.dirs, d.journal)
    ensures d.journal == None || d.journal == Some(Entry(Prepared, hadCfg, hadEnv))
      || d.journal == Some(Entry(OldMoved, hadCfg, hadEnv))
    ensures StandsFor(d) == old(Installed(d.files, d.dirs))
    ensures d.commits == old(d.commits)
    ensures CfgExposed(d.files, d.journal) ==> Lookup(d.files, Cfg) == old(Lookup(d.files, CfgTemp))
    ensures EnvExposed(d.dirs, d.journal) ==> Lookup(d.dirs, Env) == old(Lookup(d.dirs, EnvStage))
    ensures ok ==> d.running && d.journal == Some(Entry(OldMoved, hadCfg, hadEnv))
    ensures ok ==>
      Installed(d.files, d.dirs) == Pair(old(Lookup(d.files, CfgTemp)), old(Lookup(d.dirs, EnvStage)))
    ensures ok ==> CfgTemp !in d.files && EnvStage !in d.dirs
    ensures d.reliable ==> ok
  {
    ok := d.WriteJournal(Entry(Prepared, hadCfg, hadEnv));
    if !ok { return; }
    ok := MoveOldAway(d, hadCfg, hadEnv);
    if !ok { return; }
    ok := d.Step();
    if !ok { return; }
    ok := d.WriteJournal(Entry(OldMoved, hadCfg, hadEnv));
    if !ok { return; }
    ok := MoveNewIn(d, hadCfg, hadEnv);
    if !ok { return; }
    ok := d.Step();
  }

  /** The `NewInstalled` journal, and what follows it. */
  method Commit(d: Disk, hadCfg: bool, hadEnv: bool) returns (ok: bool, ghost committed: bool)
    requires d.running && d.journal == Some(Entry(OldMoved, hadCfg, hadEnv))
    requires Sound(d.files, d.dirs, d.journal) && Cfg in d.files && Env in d.dirs
    modifies d
    ensures Sound(d.files, d.dirs, d.journal)
    ensures committed ==> Installed(d.files, d.dirs) == old(Installed(d.files, d.dirs))
    ensures !committed ==> d.journal == old(d.journal) && d.files == old(d.files) && d.dirs == old(d.dirs)
    ensures d.commits == old(d.commits) + if committed then [old(Installed(d.files, d.dirs))] else []
    ensures committed ==> d.journal == None || d.journal == Some(Entry(NewInstalled, hadCfg, hadEnv))
    ensures committed && d.journal == None ==> ok
    ensures ok ==> committed
    ensures ok && d.running && d.Tidies() && CfgTemp !in old(d.files) && EnvStage !in old(d.dirs) ==>
      d.journal == None && Tidy(d.files, d.dirs)
    ensures d.reliable ==> ok
  {
    ok := d.WriteJournal(Entry(NewInstalled, hadCfg, hadEnv));
    committed := d.journal.value.phase == NewInstalled;
    if !ok { return; }
    ok := CleanUp(d);
  }

  method MoveOldAway(d: Disk, hadCfg: bool, hadEnv: bool) returns (ok: bool)
    requires CfgBackup !in d.files && EnvBackup !in d.dirs
    requires hadCfg == (Cfg in d.files) && hadEnv == (Env in d.dirs)
    modifies d`files, d`dirs, d`running
    ensures OriginalCfg(d.files, hadCfg) == old(Lookup(d.files, Cfg))
    ensures OriginalEnv(d.dirs, hadEnv) == old(Lookup(d.dirs, Env))
    ensures Restorable(Lookup(d.files, CfgBackup), Lookup(d.files, Cfg), hadCfg)
    ensures Restorable(Lookup(d.dirs, EnvBackup), Lookup(d.dirs, Env), hadEnv)
    ensures ok || !hadCfg ==> Cfg !in d.files
    ensures ok || !hadEnv ==> Env !in d.dirs
    ensures ok ==> Lookup(d.files, CfgTemp) == old(Lookup(d.files, CfgTemp))
    ensures ok ==> Lookup(d.dirs, EnvStage) == old(Lookup(d.dirs, EnvStage))
    ensures d.running ==> old(d.running)
    ensures old(d.running) && d.reliable ==> ok && d.running
  {
    if hadCfg {
      ok := d.RenameFile(Cfg, CfgBackup);
      if !ok {
        var _ := d.Unlink(CfgTemp);
        d.RemoveFlatDirectory(EnvStage);
        return;
      }
    }
    if hadEnv {
      ok := d.RenameDir(Env, EnvBackup);
      if !ok {
        if hadCfg { var _ := d.RenameFile(CfgBackup, Cfg); }
        var _ := d.Unlink(CfgTemp);
        d.RemoveFlatDirectory(EnvStage);
        return;
      }
    }
    ok := true;
  }

  method MoveNewIn(d: Disk, hadCfg: bool, hadEnv: bool) returns (ok: bool)
    requires Restorable(Lookup(d.files, CfgBackup), Lookup(d.files, Cfg), hadCfg)
    requires Restorable(Lookup(d.dirs, EnvBackup), Lookup(d.dirs, Env), hadEnv)
    requires Cfg !in d.files && Env !in d.dirs
    modifies d`files, d`dirs, d`running
    ensures OriginalCfg(d.files, hadCfg) == old(OriginalCfg(d.files, hadCfg))
    ensures OriginalEnv(d.dirs, hadEnv) == old(OriginalEnv(d.dirs, hadEnv))
    ensures Restorable(Lookup(d.files, CfgBackup), Lookup(d.files, Cfg), hadCfg)
    ensures Restorable(Lookup(d.dirs, EnvBackup), Lookup(d.dirs, Env), hadEnv)
    ensures ok ==> Cfg in d.files && Lookup(d.files, Cfg) == old(Lookup(d.files, CfgTemp))
    ensures ok ==> Env in d.dirs && Lookup(d.dirs, Env) == old(Lookup(d.dirs, EnvStage))
    ensures ok ==> CfgTemp !in d.files && EnvStage !in d.dirs
    ensures !hadCfg && Cfg in d.files ==> Lookup(d.files, Cfg) == old(Lookup(d.files, CfgTemp))
    ensures !hadEnv && Env in d.dirs ==> Lookup(d.dirs, Env) == old(Lookup(d.dirs, EnvStage))
    ensures d.running ==> old(d.running)
    ensures old(d.running) && d.reliable && CfgTemp in old(d.files) && EnvStage in old(d.dirs) ==> ok && d.running
  {
    ok := d.RenameFile(CfgTemp, Cfg);
    if ok { ok := d.RenameDir(EnvStage, Env); }
    if !ok {
      var _ := d.Unlink(Cfg);
      d.RemoveFlatDirectory(Env);
      if hadCfg { var _ := d.RenameFile(CfgBackup, Cfg); }
      if hadEnv { var _ := d.RenameDir(EnvBackup, Env); }
      var _ := d.Unlink(CfgTemp);
      d.RemoveFlatDirectory(EnvStage);
    }
  }

  method CleanUp(d: Disk) returns (ok: bool)
    modifies d`files, d`dirs, d`journal, d`running
    ensures Installed(d.files, d.dirs) == old(Installed(d.files, d.dirs))
    ensures d.journal == old(d.journal) || d.journal == None
    ensures !ok ==> d.journal == old(d.journal)
    ensures d.running ==> old(d.running)
    ensures old(d.running) && d.reliable ==> ok
    ensures ok && d.running && d.Tidies() && CfgTemp !in old(d.files) && EnvStage !in old(d.dirs) ==>
      d.journal == None && Tidy(d.files, d.dirs)
  {
    var _ := d.Unlink(CfgBackup);
    d.RemoveFlatDirectory(EnvBackup);
    assert Lookup(d.files, CfgTemp) == old(Lookup(d.files, CfgTemp));
    assert Lookup(d.dirs, EnvStage) == old(Lookup(d.dirs, EnvStage));
    ok := d.Step();
    if !ok { return; }
    var _ := d.UnlinkJournal();
    var _ := d.Step();
  }

  /** The journal tells which objects of the pair exist. */
  predicate NotesPair(journal: Option<Journal>, pair: Pair)
    requires RollsBack(journal)
  {
    journal.value.hadCfg == pair.cfg.Some? && journal.value.hadEnv == pair.env.Some?
  }

  /** save_prog_cfg: finish any interrupted save, stage the new pair, swap it in. */
  method Save(d: Disk, cfg: Content, entries: seq<(string, Content)>) returns (ok: bool, ghost committed: bool)
    requires d.running && Sound(d.files, d.dirs, d.journal)
    modifies d
    ensures Sound(d.files, d.dirs, d.journal)
    ensures committed ==>
      StandsFor(d) == Pair(Some(cfg), Some(EnvFiles(entries)))
    ensures !committed && (d.Deletes() || (!old(CfgExposed(d.files, d.journal)) && !old(EnvExposed(d.dirs, d.journal)))) ==>
      && StandsFor(d) == old(StandsFor(d))
      && (RollsBack(d.journal) && d.journal != old(d.journal) ==> NotesPair(d.journal, StandsFor(d)))
    ensures d.commits == old(d.commits) + if committed then [Pair(Some(cfg), Some(EnvFiles(entries)))] else []
    ensures d.journal == None ==> (committed <==> ok)
    ensures old(d.journal) == None ==>
      (committed <==> ok || (d.journal.Some? && d.journal.value.Entry? && d.journal.value.phase == NewInstalled))
    ensures committed ==> !RollsBack(d.journal)
    ensures old(d.journal) == None && RollsBack(d.journal) ==>
      d.journal.value.hadCfg == (Cfg in old(d.files)) && d.journal.value.hadEnv == (Env in old(d.dirs))
    ensures old(d.journal) == None && CfgExposed(d.files, d.journal) ==> Lookup(d.files, Cfg) == Some(cfg)
    ensures old(d.journal) == None && EnvExposed(d.dirs, d.journal) ==>
      Lookup(d.dirs, Env) == Some(EnvFiles(entries))
    ensures d.journal == Some(Damaged) ==> old(d.journal) == Some(Damaged)
    ensures ok ==> committed
    ensures ok && d.running && d.Tidies() ==> d.journal == None && Tidy(d.files, d.dirs)
    ensures d.running ==> old(d.running)
    ensures d.reliable && old(d.journal) == None ==> ok
  {
    committed := false;
    ok := Recover(d);
    if !ok { return; }
    d.ChooseSuffix();
    ok := Stage(d, cfg, entries);
    if !ok { return; }
    ok, committed := Install(d);
  }

  /** The directory is the same, or it was missing and has been created anew. */
  predicate Revived(after: Option<Directory>, before: Option<Directory>) {
    after == before || (before == None && after == Some(map[]))
  }

  /** What can be left of an environ directory that was not there before the save. */
  predicate Leftover(after: Option<Directory>, before: Option<Directory>) {
    if before == None then Revived(after, None) else PartOf(after, before)
  }

  /** What is on the disk at one moment. */
  datatype Image = Image(files: map<FileName, Content>, dirs: map<DirName, Directory>, journal: Option<Journal>)
  {
    function Pair(): Pair {
      Logical(files, dirs, journal)
    }

    /** A rollback is pending that should leave the disk without a configuration, or without an environ directory. */
    predicate Unconfigured() {
      RollsBack(journal) && !journal.value.hadCfg
    }

    predicate WithoutEnv() {
      RollsBack(journal) && !journal.value.hadEnv
    }
  }

  function ImageOf(d: Disk): Image
    reads d
  {
    Image(d.files, d.dirs, d.journal)
  }

  /** What starts may do to the journal and the configuration. */
  ghost predicate CfgAfter(before: Image, after: Image, predictable: bool, resists: bool) {
    && (after.journal == before.journal || after.journal == None)
    && (before.journal == Some(Damaged) ==> after.journal == Some(Damaged))
    && (after.journal.Some? && after.journal.value.Entry? ==> after.Pair().cfg == before.Pair().cfg)
    && (!CfgExposed(before.files, before.journal) ==> after.Pair().cfg == before.Pair().cfg)
    && (RollsBack(before.journal) && predictable ==>
          (after.Pair().cfg == before.Pair().cfg <==>
            !(after.journal == None && resists && CfgExposed(before.files, before.journal))))
    && (before.Unconfigured() ==>
          && Lookup(after.files, Cfg) in {None, Lookup(before.files, Cfg)}
          && (resists ==> Lookup(after.files, Cfg) == Lookup(before.files, Cfg)))
  }

  /** What they may do to the environ directory. */
  ghost predicate EnvAfter(before: Image, after: Image, predictable: bool, resists: bool) {
    && (after.journal == before.journal || after.journal == None)
    && (after.journal.Some? && after.journal.value.Entry? ==> after.Pair().env == before.Pair().env)
    && (!before.WithoutEnv() ==> Revived(after.Pair().env, before.Pair().env))
    && (before.WithoutEnv() ==>
          && Leftover(Lookup(after.dirs, Env), Lookup(before.dirs, Env))
          && (resists && Env in before.dirs ==> Lookup(after.dirs, Env) == Lookup(before.dirs, Env))
          && (predictable && !resists && after.journal == None ==> Revived(Lookup(after.dirs, Env), None)))
  }

  lemma CfgAfterMore(a: Image, b: Image, c: Image, predictable: bool, resists: bool)
    requires CfgAfter(a, b, predictable, resists) && CfgAfter(b, c, predictable, resists)
    ensures CfgAfter(a, c, predictable, resists)
  {}

  lemma EnvAfterMore(a: Image, b: Image, c: Image, predictable: bool, resists: bool)
    requires EnvAfter(a, b, predictable, resists) && EnvAfter(b, c, predictable, resists)
    ensures EnvAfter(a, c, predictable, resists)
  {}

  /** The environ directory is created if it is missing. */
  method MakeEnv(d: Disk)
    requires Sound(d.files, d.dirs, d.journal)
    modifies d`dirs, d`running
    ensures Sound(d.files, d.dirs, d.journal)
    ensures CfgAfter(old(ImageOf(d)), ImageOf(d), d.Predictable(), Cfg in d.protectedFiles)
    ensures EnvAfter(old(ImageOf(d)), ImageOf(d), d.Predictable(), Env in d.protectedDirs)
    ensures EnvStuck(d) == old(EnvStuck(d))
    ensures old(d.running) && d.reliable ==> d.running
  {
    if Env !in d.dirs { var _ := d.MakeDir(Env); }
  }

  /** What the daemon does before it loads its configuration: make the environ directory, recover. */
  method Startup(d: Disk) returns (ok: bool)
    requires Sound(d.files, d.dirs, d.journal)
    modifies d`files, d`dirs, d`journal, d`running
    ensures Sound(d.files, d.dirs, d.journal)
    ensures ok ==> d.running && d.journal == None
    ensures CfgAfter(old(ImageOf(d)), ImageOf(d), d.Predictable(), Cfg in d.protectedFiles)
    ensures EnvAfter(old(ImageOf(d)), ImageOf(d), d.Predictable(), Env in d.protectedDirs)
    ensures d.Predictable() && Env !in d.protectedDirs && old(ImageOf(d)).WithoutEnv() && d.journal == None ==>
      Env !in d.dirs
    ensures d.reliable && old(d.journal) != Some(Damaged) ==> ok == !(RollsBack(old(d.journal)) && old(EnvStuck(d)))
  {
    ghost var before := ImageOf(d);
    d.Restart();
    MakeEnv(d);
    ghost var made := ImageOf(d);
    ok := Recover(d);
    CfgAfterMore(before, made, ImageOf(d), d.Predictable(), Cfg in d.protectedFiles);
    EnvAfterMore(before, made, ImageOf(d), d.Predictable(), Env in d.protectedDirs);
  }

  /** Any number of starts whose recoveries may stop anywhere.  Once one has completed, each installed
      object is the one the disk stood for when the process stopped, unless that object was not there
      before the save, is there now, and was not deleted.  Where it is known what resists deletion, this
      happens if and only if the object is one of those.

      A missing environ directory may come back empty, since every start creates it. */
  method Restarts(d: Disk, starts: nat) returns (recovered: bool)
    requires Sound(d.files, d.dirs, d.journal)
    modifies d`files, d`dirs, d`journal, d`running
    ensures Sound(d.files, d.dirs, d.journal)
    // whether or not a start has completed
    ensures d.journal == old(d.journal) || d.journal == None
    ensures d.journal.Some? && d.journal.value.Entry? ==> StandsFor(d) == old(StandsFor(d))
    ensures !old(CfgExposed(d.files, d.journal)) ==> StandsFor(d).cfg == old(StandsFor(d)).cfg
    ensures !old(EnvExposed(d.dirs, d.journal)) ==> Revived(StandsFor(d).env, old(StandsFor(d)).env)
    // once one has
    ensures recovered ==> d.running && d.journal == None && old(d.journal) != Some(Damaged)
    ensures recovered && !old(CfgExposed(d.files, d.journal)) ==>
      Installed(d.files, d.dirs).cfg == old(StandsFor(d)).cfg
    ensures recovered && old(CfgExposed(d.files, d.journal)) ==>
      Installed(d.files, d.dirs).cfg in {None, old(Lookup(d.files, Cfg))}
    ensures recovered && d.Predictable() ==>
      (Installed(d.files, d.dirs).cfg == old(StandsFor(d)).cfg <==>
        !(Cfg in d.protectedFiles && old(CfgExposed(d.files, d.journal))))
    ensures recovered && !old(EnvExposed(d.dirs, d.journal)) ==>
      Revived(Installed(d.files, d.dirs).env, old(StandsFor(d)).env)
    ensures recovered && old(EnvExposed(d.dirs, d.journal)) ==>
      PartOf(Installed(d.files, d.dirs).env, old(Lookup(d.dirs, Env)))
    ensures recovered && d.Predictable() ==>
      (Revived(Installed(d.files, d.dirs).env, old(StandsFor(d)).env) <==>
        !(Env in d.protectedDirs && old(EnvExposed(d.dirs, d.journal)) && old(d.dirs)[Env] != map[]))
    ensures d.reliable && starts > 0 && old(d.journal) != Some(Damaged) && !RollsBack(old(d.journal)) ==> recovered
  {
    ghost var before := ImageOf(d);
    ghost var sure, cfgResists, envResists := d.Predictable(), Cfg in d.protectedFiles, Env in d.protectedDirs;
    recovered := false;
    for i := 0 to starts
      invariant Sound(d.files, d.dirs, d.journal)
      invariant CfgAfter(before, ImageOf(d), sure, cfgResists) && EnvAfter(before, ImageOf(d), sure, envResists)
      invariant recovered ==> d.running && d.journal == None
      invariant d.reliable && i > 0 && before.journal != Some(Damaged) && !RollsBack(before.journal) ==> recovered
    {
      ghost var now := ImageOf(d);
      recovered := Startup(d);
      CfgAfterMore(before, now, ImageOf(d), sure, cfgResists);
      EnvAfterMore(before, now, ImageOf(d), sure, envResists);
    }
  }

  /** A save that may stop anywhere, any number of starts whose recoveries may stop anywhere, and
      a last start that completes: the installed pair is the new one if the `NewInstalled` journal had
      been written and the old one otherwise.

      The exception is an object that the save created and then stopped before committing, which
      `cfgLeft` and `envLeft` tell of; that cannot be when the object existed before the save.  If what
      resists deletion is known, such an object stays if and only if it does.  `Restarts` is the theorem
      behind this: it tells the outcome from the disk as the stopped save left it. */
  method SaveThenRestarts(d: Disk, cfg: Content, entries: seq<(string, Content)>, restarts: nat)
    returns (recovered: bool, ghost committed: bool, ghost cfgLeft: bool, ghost envLeft: bool)
    requires d.running && d.journal == None
    modifies d
    ensures d.commits == old(d.commits) + if committed then [Pair(Some(cfg), Some(EnvFiles(entries)))] else []
    ensures cfgLeft ==> !committed && Cfg !in old(d.files)
    ensures envLeft ==> !committed && Env !in old(d.dirs)
    ensures recovered && committed ==>
      Installed(d.files, d.dirs) == Pair(Some(cfg), Some(EnvFiles(entries)))
    ensures recovered && !committed && !cfgLeft ==>
      Installed(d.files, d.dirs).cfg == old(Installed(d.files, d.dirs)).cfg
    ensures recovered && cfgLeft ==> Installed(d.files, d.dirs).cfg in {None, Some(cfg)}
    ensures recovered && cfgLeft && d.Predictable() ==>
      Installed(d.files, d.dirs).cfg == if Cfg in d.protectedFiles then Some(cfg) else None
    ensures recovered && !committed && !envLeft ==>
      Revived(Installed(d.files, d.dirs).env, old(Installed(d.files, d.dirs)).env)
    ensures recovered && envLeft ==> PartOf(Installed(d.files, d.dirs).env, Some(EnvFiles(entries)))
    ensures recovered && envLeft && d.Predictable() ==>
      (Revived(Installed(d.files, d.dirs).env, None) <==> Env !in d.protectedDirs || EnvFiles(entries) == map[])
    ensures d.reliable ==> committed && recovered
  {
    var saved;
    saved, committed := Save(d, cfg, entries);
    cfgLeft, envLeft := CfgExposed(d.files, d.journal), EnvExposed(d.dirs, d.journal);
    recovered := Restarts(d, restarts + 1);
  }

  datatype Act = DoSave(cfg: Content, entries: seq<(string, Content)>) | DoStart

  /** What an act adds to the record. */
  ghost function Recorded(act: Act, done: bool): seq<Pair> {
    if done && act.DoSave? then [Pair(Some(act.cfg), Some(EnvFiles(act.entries)))] else []
  }

  /** The pairs of the saves that committed, in order. */
  ghost function SavedPairs(script: seq<Act>, committed: seq<bool>): seq<Pair>
    requires |committed| == |script|
  {
    if script == [] then []
    else
      var last := |script| - 1;
      SavedPairs(script[..last], committed[..last]) + Recorded(script[last], committed[last])
  }

  /** The results and the record of the first acts of a script. */
  ghost predicate Chronicle(script: seq<Act>, oks: seq<bool>, committed: seq<bool>, recorded: seq<Pair>) {
    && |oks| == |committed| <= |script|
    && (forall i :: 0 <= i < |oks| && script[i].DoSave? && oks[i] ==> committed[i])
    && recorded == SavedPairs(script[..|committed|], committed)
  }

  lemma OneMoreAct(script: seq<Act>, oks: seq<bool>, committed: seq<bool>, recorded: seq<Pair>, ok: bool, done: bool)
    requires Chronicle(script, oks, committed, recorded) && |oks| < |script|
    requires script[|oks|].DoSave? && ok ==> done
    ensures Chronicle(script, oks + [ok], committed + [done], recorded + Recorded(script[|oks|], done))
  {
    var n := |committed|;
    assert script[..n + 1][..n] == script[..n];
    assert (committed + [done])[..n] == committed;
  }

  /** The pair that was committed last, or the one there was at the beginning. */
  ghost function LastOf(initial: Pair, commits: seq<Pair>): Pair {
    if commits == [] then initial else commits[|commits| - 1]
  }

  /** The pair is that one, up to an environ directory created anew. */
  predicate Holds(pair: Pair, saved: Pair) {
    pair.cfg == saved.cfg && Revived(pair.env, saved.env)
  }

  /** Both objects exist, and a rollback has nothing to delete. */
  predicate BothExist(d: Disk)
    reads d
  {
    && StandsFor(d).cfg.Some? && StandsFor(d).env.Some?
    && (RollsBack(d.journal) ==> NotesPair(d.journal, StandsFor(d)))
  }

  /** Nothing is lost: deletions cannot be refused or are not needed, and the disk stands for the pair
      committed last. */
  ghost predicate Faithful(d: Disk, initial: Pair, recorded: seq<Pair>)
    reads d
  {
    (d.Deletes() || BothExist(d)) && Holds(StandsFor(d), LastOf(initial, recorded))
  }

  /** One act; a save needs a running process. */
  method Perform(d: Disk, act: Act, ghost initial: Pair, ghost earlier: seq<Pair>, ghost recorded: seq<Pair>)
    returns (ok: bool, ghost done: bool)
    requires d.commits == earlier + recorded
    requires Sound(d.files, d.dirs, d.journal) && d.journal != Some(Damaged)
    modifies d
    ensures Sound(d.files, d.dirs, d.journal) && d.journal != Some(Damaged)
    ensures act.DoSave? && ok ==> done
    ensures d.commits == earlier + (recorded + Recorded(act, done))
    ensures old(Faithful(d, initial, recorded)) ==> Faithful(d, initial, recorded + Recorded(act, done))
    ensures ok ==> !RollsBack(d.journal)
  {
    ok, done := false, false;
    assert recorded + [] == recorded;
    match act {
      case DoSave(cfg, entries) => if d.running { ok, done := Save(d, cfg, entries); }
      case DoStart => ok := Startup(d);
    }
    assert earlier + recorded + Recorded(act, done) == earlier + (recorded + Recorded(act, done));
  }

  /** Saves and starts in any order, each of which may stop or be refused anywhere: the disk always
      stands for the pair of the last save that put its `NewInstalled` journal in place, a successful act
      has that pair installed, and every successful save is committed. */
  method Live(d: Disk, script: seq<Act>) returns (oks: seq<bool>, ghost committed: seq<bool>, ghost recorded: seq<Pair>)
    requires Sound(d.files, d.dirs, d.journal) && d.journal != Some(Damaged)
    modifies d
    ensures Sound(d.files, d.dirs, d.journal)
    ensures |oks| == |committed| == |script|
    ensures forall i :: 0 <= i < |script| && script[i].DoSave? && oks[i] ==> committed[i]
    ensures d.commits == old(d.commits) + recorded && recorded == SavedPairs(script, committed)
    ensures d.Deletes() || old(BothExist(d)) ==> Holds(StandsFor(d), LastOf(old(StandsFor(d)), recorded))
    ensures script != [] && oks[|script| - 1] ==> Installed(d.files, d.dirs) == StandsFor(d)
  {
    oks, committed, recorded := [], [], [];
    ghost var initial, earlier := StandsFor(d), d.commits;
    ghost var sure := Faithful(d, initial, recorded);
    assert script[..0] == [] && earlier + [] == earlier;
    for i := 0 to |script|
      invariant Sound(d.files, d.dirs, d.journal) && d.journal != Some(Damaged)
      invariant |oks| == i && Chronicle(script, oks, committed, recorded)
      invariant d.commits == earlier + recorded
      invariant sure ==> Faithful(d, initial, recorded)
      invariant i > 0 && oks[i - 1] ==> !RollsBack(d.journal)
    {
      var ok, done := Perform(d, script[i], initial, earlier, recorded);
      OneMoreAct(script, oks, committed, recorded, ok, done);
      oks, committed, recorded := oks + [ok], committed + [done], recorded + Recorded(script[i], done);
    }
    assert script[..|script|] == script;
  }

  /** A save stopped between its two installing renames, on a machine that had no configuration yet
      (the environ directory is always there: the daemon creates it).  If the new configuration resists
      deletion, the next start reports success and leaves it beside the old environ directory. */
  method FirstSaveMixesPair() returns (d: Disk, ok: bool)
    ensures fresh(d) && ok && d.journal == None
    ensures Installed(d.files, d.dirs) == Pair(Some("new"), Some(map["a.yaml" := "old"]))
  {
    d := new Disk(map[Cfg := "new"], map[EnvBackup := map["a.yaml" := "old"], EnvStage := map["a.yaml" := "new"]],
      Some(Entry(OldMoved, false, true)), true, {Cfg}, {}, true);
    ok := Startup(d);
  }
}
