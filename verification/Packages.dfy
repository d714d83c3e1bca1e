/**
  Installing and upgrading packages (rust_backend/crates/extensions/src/manager.rs). Every mutation holds
  the manager's mutation lock, so it is one step; what the file system and the checks answer is `System`.

  `dirs` is the managed source directory. Temporary names are never used twice.
*/
module Packages {
  import opened Versions

  type Name = string

  /** What a package directory holds: its manifest's name and version, and the rest. */
  datatype Package = Package(name: Name, version: string, body: nat)

  datatype Dir = Target(name: Name) | Stage(n: nat) | Backup(n: nat)

  datatype State = State(dirs: map<Dir, Package>, entries: map<Name, Package>, next: nat)

  datatype Failure =
    | NotNewer | AlreadyThere | StageFailed | Invalid | BackupFailed | PreserveFailed | ActivateFailed | RollbackFailed
  datatype Result = Done | Failed(why: Failure)

  /** Which calls succeed: extracting the stage, validating, preparing the backup name, and each rename. */
  datatype System = System(stage: bool, valid: bool, backup: bool, preserve: bool, activate: bool, rollback: bool)

  datatype Outcome = Outcome(state: State, result: Result)

  /** `fs::rename` to a name that is free: it happens or it fails. */
  function Rename(dirs: map<Dir, Package>, from: Dir, to: Dir): map<Dir, Package>
    requires from in dirs
  {
    (dirs - {from})[to := dirs[from]]
  }

  /** `install_package`. A package that does not validate is installed disabled. */
  function Installed(s: State, p: Package, y: System): Outcome {
    if Target(p.name) in s.dirs then Outcome(s, Failed(AlreadyThere))
    else
      var s' := s.(next := s.next + 1);
      if !y.stage then Outcome(s', Failed(StageFailed))
      else if !y.activate then Outcome(s', Failed(ActivateFailed))
      else Outcome(s'.(dirs := s.dirs[Target(p.name) := p], entries := s.entries[p.name := p]), Done)
  }

  /** `upgrade_package`. The stage and, unless it had to be kept, the backup go when it returns. */
  ghost function Upgraded(s: State, p: Package, old': Package, y: System): Outcome {
    if !Compare(p.version, old'.version).Greater? then Outcome(s, Failed(NotNewer))
    else
      var s' := s.(next := s.next + 2);
      if !y.stage then Outcome(s', Failed(StageFailed))
      else if !y.valid then Outcome(s', Failed(Invalid))
      else if !y.backup then Outcome(s', Failed(BackupFailed))
      else if !y.preserve || Target(old'.name) !in s.dirs then Outcome(s', Failed(PreserveFailed))
      else if !y.activate then
        if y.rollback then Outcome(s', Failed(ActivateFailed))
        else Outcome(s'.(dirs := Rename(s.dirs, Target(old'.name), Backup(s.next + 1))), Failed(RollbackFailed))
      else
        Outcome(s'.(dirs := s.dirs[Target(old'.name) := p], entries := s.entries[p.name := p]), Done)
  }

  ghost function InstallOrUpgrade(s: State, p: Package, y: System): Outcome {
    if p.name in s.entries then Upgraded(s, p, s.entries[p.name], y) else Installed(s, p, y)
  }

  datatype Event =
    | Install(package: Package, system: System)
    | Upgrade(package: Package, system: System)
    | Load(name: Name)
    | Unload(name: Name)
    | Remove(name: Name, source: bool, data: bool)
    | UnloadAll
    | Shutdown

  ghost function Next(s: State, e: Event): State {
    match e
    case Install(p, y) => InstallOrUpgrade(s, p, y).state
    case Upgrade(p, y) => if p.name in s.entries then Upgraded(s, p, s.entries[p.name], y).state else s
    case Load(name) =>
      // `load_directory`: an entry that is there already stays as it is
      if name in s.entries || Target(name) !in s.dirs || s.dirs[Target(name)].name != name then s
      else s.(entries := s.entries[name := s.dirs[Target(name)]])
    case Unload(name) => s.(entries := s.entries - {name})
    // after a shutdown every operation is refused; allowing more does no harm
    case UnloadAll => s.(entries := map[])
    case Shutdown => s.(entries := map[])
    case Remove(name, source, data) =>
      // the entry stays unless both the source and the data went
      if name !in s.entries then s
      else s.(dirs := if source then s.dirs - {Target(name)} else s.dirs,
              entries := if source && data then s.entries - {name} else s.entries)
  }

  ghost function After(s: State, events: seq<Event>): State
    decreases |events|
  {
    if events == [] then s else After(Next(s, events[0]), events[1..])
  }

  // ----- one upgrade -----------------------------------------------------------------------------

  ghost predicate Inv(s: State) {
    && (forall n | n in s.entries :: s.entries[n].name == n)
    && (forall d | d in s.dirs :: d.Target? || (d.Backup? && d.n < s.next))
  }

  /** The installed package is whole, at its target or at a backup that was kept. */
  ghost predicate Whole(s: State, name: Name)
    requires name in s.entries
  {
    || (Target(name) in s.dirs && s.dirs[Target(name)] == s.entries[name])
    || (exists n: nat :: Backup(n) in s.dirs && s.dirs[Backup(n)] == s.entries[name])
  }

  /** On every error path the entry is unchanged and the old package is whole: in place, unless both the
      activation and the roll-back failed, and then at a new backup. Nothing else is touched. */
  lemma {:induction false} FailedUpgradeKeepsOldPackage(s: State, p: Package, y: System)
    requires Inv(s) && p.name in s.entries && Target(p.name) in s.dirs && s.dirs[Target(p.name)] == s.entries[p.name]
    ensures var o := Upgraded(s, p, s.entries[p.name], y);
            && Inv(o.state)
            && (o.result.Failed? ==> o.state.entries == s.entries && Whole(o.state, p.name))
            && (o.result.Failed? && o.result.why != RollbackFailed ==> o.state.dirs == s.dirs)
            && (o.result == Failed(RollbackFailed) ==>
                 && Target(p.name) !in o.state.dirs
                 && o.state.dirs == (s.dirs - {Target(p.name)})[Backup(s.next + 1) := s.entries[p.name]]
                 && Backup(s.next + 1) !in s.dirs)
            && (o.result.Done? <==> Compare(p.version, s.entries[p.name].version).Greater?
                                    && y.stage && y.valid && y.backup && y.preserve && y.activate)
            && (o.result.Done? ==>
                 && o.state.dirs == s.dirs[Target(p.name) := p] && o.state.entries == s.entries[p.name := p])
  {
    hide Compare;
    var o := Upgraded(s, p, s.entries[p.name], y);
    if o.result == Failed(RollbackFailed) {
      assert Backup(s.next + 1) in o.state.dirs;
    }
  }

  /** Installing and upgrading, told from the package alone: success puts it at its target and in the entries, and
      nothing else changes; it needs a free target or a newer version. Failure changes no entry, and no directory
      that `FailedUpgradeKeepsOldPackage` does not mention. */
  lemma {:induction false} InstallOrUpgradeExactly(s: State, p: Package, y: System)
    requires Inv(s)
    ensures var o := InstallOrUpgrade(s, p, y);
            && Inv(o.state)
            && (o.result.Done? ==>
                 && Target(p.name) in o.state.dirs && o.state.dirs[Target(p.name)] == p
                 && p.name in o.state.entries && o.state.entries[p.name] == p
                 && (forall d | d != Target(p.name) ::
                       (d in o.state.dirs <==> d in s.dirs) && (d in s.dirs ==> o.state.dirs[d] == s.dirs[d]))
                 && (forall n | n != p.name ::
                       && (n in o.state.entries <==> n in s.entries)
                       && (n in s.entries ==> o.state.entries[n] == s.entries[n])))
            && (o.result.Failed? ==> o.state.entries == s.entries)
            && (o.result.Failed? && o.result.why != RollbackFailed ==> o.state.dirs == s.dirs)
            && (o.result.Done? <==>
                 && y.stage && y.activate
                 && if p.name in s.entries
                    then Compare(p.version, s.entries[p.name].version).Greater? && y.valid && y.backup && y.preserve
                         && Target(p.name) in s.dirs
                    else Target(p.name) !in s.dirs)
  {
    hide Compare;
  }

  /** An entry goes only when its source and its data both went; then the package may be installed again. What lies at
      its target may be loaded again, whole. */
  lemma {:induction false} RemovedMayReturn(s: State, p: Package, y: System)
    requires Inv(s) && p.name in s.entries
    ensures InstallOrUpgrade(Next(s, Remove(p.name, true, true)), p, y).result.Done? <==> y.stage && y.activate
    ensures var kept := Next(Next(s, Unload(p.name)), Load(p.name));
            if Target(p.name) in s.dirs && s.dirs[Target(p.name)].name == p.name
            then p.name in kept.entries && kept.entries[p.name] == s.dirs[Target(p.name)] && Whole(kept, p.name)
            else p.name !in kept.entries
    ensures forall source, data ::
              var left := Next(s, Remove(p.name, source, data));
              && (p.name in left.entries <==> !source || !data)
              && (Target(p.name) in left.dirs <==> !source && Target(p.name) in s.dirs)
  {
    hide Compare;
  }

  // ----- runs ------------------------------------------------------------------------------------

  predicate Drops(e: Event, name: Name) {
    ((e.Unload? || e.Remove?) && e.name == name) || e.UnloadAll? || e.Shutdown?
  }

  ghost predicate NotOlder(new': Package, old': Package) { !Compare(new'.version, old'.version).Less? }

  lemma {:induction false} StepKeepsWhole(s: State, e: Event, name: Name)
    requires Inv(s)
    ensures Inv(Next(s, e))
    ensures name in s.entries && Whole(s, name) && !Drops(e, name) ==>
              name in Next(s, e).entries && Whole(Next(s, e), name)
  {
    hide Compare;
    var s' := Next(s, e);
    if name in s.entries && Whole(s, name) && !Drops(e, name) {
      if s'.entries[name] == s.entries[name] && !(Target(name) in s.dirs && s.dirs[Target(name)] == s.entries[name]) {
        var n: nat :| Backup(n) in s.dirs && s.dirs[Backup(n)] == s.entries[name];
        assert Backup(n) in s'.dirs && s'.dirs[Backup(n)] == s.dirs[Backup(n)];
      } else if s'.entries[name] == s.entries[name] && Target(name) !in s'.dirs {
        assert Backup(s.next + 1) in s'.dirs;
      }
    }
  }

  lemma {:induction false} StepNeverDowngrades(s: State, e: Event, name: Name)
    requires Inv(s) && name in s.entries && !Drops(e, name)
    ensures name in Next(s, e).entries && NotOlder(Next(s, e).entries[name], s.entries[name])
  {
    var v := s.entries[name].version;
    TotalPreorder(Parts(v), Parts(v), Parts(v));
    hide Order;
  }

  /** Over any run in which an extension is neither unloaded nor removed, and the manager is not shut down,
      its version never goes down, and its package stays whole. */
  lemma {:induction false} VersionsNeverGoDown(s: State, events: seq<Event>, name: Name)
    requires Inv(s) && name in s.entries && Whole(s, name)
    requires forall e | e in events :: !Drops(e, name)
    ensures Inv(After(s, events)) && name in After(s, events).entries
    ensures Whole(After(s, events), name)
    ensures NotOlder(After(s, events).entries[name], s.entries[name])
    decreases |events|
  {
    if events == [] {
      var v := Parts(s.entries[name].version);
      TotalPreorder(v, v, v);
    } else {
      var next, last := Next(s, events[0]), After(s, events);
      StepKeepsWhole(s, events[0], name);
      StepNeverDowngrades(s, events[0], name);
      hide Next, Order, Whole;
      VersionsNeverGoDown(next, events[1..], name);
      TotalPreorder(Parts(last.entries[name].version), Parts(next.entries[name].version),
                    Parts(s.entries[name].version));
    }
  }

  // ----- the program -----------------------------------------------------------------------------

  /** The manager's directories and entries, updated in place. */
  class ExtensionManager {
    var dirs: map<Dir, Package>
    var entries: map<Name, Package>
    var next: nat

    function Model(): State
      reads this
    {
      State(dirs, entries, next)
    }

    ghost predicate Valid()
      reads this
    {
      Inv(Model())
    }

    constructor ()
      ensures Valid() && dirs == map[] && entries == map[]
    {
      dirs, entries, next := map[], map[], 0;
    }

    method RenameDir(from: Dir, to: Dir, works: bool) returns (ok: bool)
      requires to !in dirs
      modifies this`dirs
      ensures ok <==> works && from in old(dirs)
      ensures dirs == if ok then Rename(old(dirs), from, to) else old(dirs)
    {
      ok := works && from in dirs;
      if ok {
        dirs := (dirs - {from})[to := dirs[from]];
      }
    }

    /** The stage directory is dropped with everything in it. */
    method DropDir(dir: Dir)
      modifies this`dirs
      ensures dirs == old(dirs) - {dir}
    {
      dirs := dirs - {dir};
    }

    method InstallPackage(p: Package, y: System) returns (r: Result)
      requires Valid()
      modifies this
      ensures Valid()
      ensures Model() == Installed(old(Model()), p, y).state && r == Installed(old(Model()), p, y).result
    {
      if Target(p.name) in dirs {
        return Failed(AlreadyThere);
      }
      ghost var before := dirs;
      var stage := Stage(next);
      next := next + 1;
      if !y.stage {
        return Failed(StageFailed);
      }
      dirs := dirs[stage := p];
      var ok := RenameDir(stage, Target(p.name), y.activate);
      if !ok {
        DropDir(stage);
        assert dirs == before;
        return Failed(ActivateFailed);
      }
      assert dirs == before[Target(p.name) := p];
      entries := entries[p.name := p];
      r := Done;
    }

    /** `upgrade_package`: preserve the old directory, activate the new one, roll back if that fails. */
    method UpgradePackage(p: Package, existing: Package, y: System) returns (r: Result)
      requires Valid() && existing.name == p.name
      modifies this
      ensures Valid()
      ensures Model() == Upgraded(old(Model()), p, existing, y).state
      ensures r == Upgraded(old(Model()), p, existing, y).result
    {
      hide Compare;
      var c := CompareVersions(p.version, existing.version);
      if !c.Greater? {
        return Failed(NotNewer);
      }
      ghost var before := dirs;
      var target, stage, backup := Target(existing.name), Stage(next), Backup(next + 1);
      next := next + 2;
      if !y.stage {
        return Failed(StageFailed);
      }
      dirs := dirs[stage := p];
      if !y.valid || !y.backup {
        DropDir(stage);
        assert dirs == before;
        return Failed(if y.valid then BackupFailed else Invalid);
      }
      r := Swap(stage, target, backup, y);
      if r.Done? {
        assert dirs == before[target := p];
        entries := entries[p.name := p];
      } else if r.why.RollbackFailed? {
        assert dirs == Rename(before, target, backup);
      } else {
        assert dirs == before;
      }
    }

    /** The renames of an upgrade, and the end of the two temporary directories. */
    method Swap(stage: Dir, target: Dir, backup: Dir, y: System) returns (r: Result)
      requires stage in dirs && backup !in dirs && stage != target && stage != backup && target != backup
      modifies this`dirs
      ensures r.Done? <==> y.preserve && target in old(dirs) && y.activate
      ensures r.Failed? ==> r.why == if !y.preserve || target !in old(dirs) then PreserveFailed
                                     else if y.rollback then ActivateFailed else RollbackFailed
      ensures dirs == if r.Done? then (old(dirs) - {stage})[target := old(dirs)[stage]]
                      else if r.why.RollbackFailed? then Rename(old(dirs) - {stage}, target, backup)
                      else old(dirs) - {stage}
    {
      var preserved := RenameDir(target, backup, y.preserve);
      if !preserved {
        DropDir(stage);
        return Failed(PreserveFailed);
      }
      var activated := RenameDir(stage, target, y.activate);
      if !activated {
        var restored := RenameDir(backup, target, y.rollback);
        DropDir(stage);
        return Failed(if restored then ActivateFailed else RollbackFailed);
      }
      DropDir(backup);
      r := Done;
    }

    method InstallOrUpgradePackage(p: Package, y: System) returns (r: Result)
      requires Valid()
      modifies this
      ensures Valid()
      ensures Model() == InstallOrUpgrade(old(Model()), p, y).state && r == InstallOrUpgrade(old(Model()), p, y).result
    {
      if p.name in entries {
        r := UpgradePackage(p, entries[p.name], y);
      } else {
        r := InstallPackage(p, y);
      }
    }
  }
}
