/** WriteAtomicGuarded in internal/bundle/bundle.go: a directory is replaced under
    a lock, through a stage and a backup, and any step may fail or be the last. */
module Installer {
  import opened ByteStrings
  import opened Wrappers

  /** The contents of a complete bundle. */
  type Bundle = Bytes

  datatype Dir = Whole(bundle: Bundle) | Remains

  datatype Outcome = Done | Busy | Failed | Leftover | Killed

  /** The steps that the file system may refuse. */
  datatype Step = TakeLock | OpenStage | FindBackup | MoveOld | MoveNew | RollBack | RemoveBackup

  /** Nothing stands in the way of installing what was built. */
  predicate Favourable(built: Option<Bundle>, approved: bool, backup: Option<Dir>, trouble: set<Step>) {
    && built.Some? && approved && backup.None?
    && TakeLock !in trouble && OpenStage !in trouble && FindBackup !in trouble && MoveOld !in trouble
    && MoveNew !in trouble
  }

  /** The old bundle stays at the backup: it was moved there, the new one could not be put
      in its place, and moving it back failed as well. */
  predicate Stranded(built: Option<Bundle>, approved: bool, target: Option<Dir>, backup: Option<Dir>,
                     trouble: set<Step>) {
    && built.Some? && approved && backup.None? && target.Some?
    && TakeLock !in trouble && OpenStage !in trouble && FindBackup !in trouble && MoveOld !in trouble
    && MoveNew in trouble && RollBack in trouble
  }

  /** The most steps that a call takes. */
  const STEPS_OF_A_CALL: nat := 10

  class Installation {
    var lock: bool
    var stage: Option<Dir>
    var target: Option<Dir>
    var backup: Option<Dir>
    /** How many more steps happen before the process is killed. */
    var power: nat
    /** The bundle that was installed last. */
    ghost var current: Option<Bundle>

    /** The bundle installed last is whole at the target, or else at the backup
        while there is no target. */
    ghost predicate Kept()
      reads this
    {
      if current.None? then target.None?
      else target == Some(Whole(current.value)) || (target.None? && backup == Some(Whole(current.value)))
    }

    constructor (bundle: Option<Bundle>)
      ensures Kept() && current == bundle && backup.None? && !lock
    {
      lock, stage, backup, power := false, None, None, 0;
      target := if bundle.Some? then Some(Whole(bundle.value)) else None;
      current := bundle;
    }

    method Tick() returns (alive: bool)
      modifies this`power
      ensures if alive then power == old(power) - 1 else power == old(power) == 0
    {
      alive := power > 0;
      if alive {
        power := power - 1;
      }
    }

    /** Builds the new bundle in the stage. None stands for a build error. */
    method Build(built: Option<Bundle>) returns (alive: bool)
      modifies this`stage, this`power
      ensures power <= old(power) <= power + 1 && (!alive ==> power == 0)
      ensures alive && built.Some? ==> stage == Some(Whole(built.value))
    {
      stage := Some(Remains);
      alive := Tick();
      if alive && built.Some? {
        stage := Some(Whole(built.value));
      }
    }

    /** Puts the staged bundle in the place of the old one. */
    method Replace(bundle: Bundle, trouble: set<Step>) returns (o: Outcome)
      requires Kept() && stage == Some(Whole(bundle)) && backup.None?
      modifies this`stage, this`target, this`backup, this`power, this`current
      ensures Kept() && power <= old(power) <= power + 4 && (o.Killed? ==> power == 0) && !o.Busy?
      ensures current == old(current) || (current == Some(bundle) && MoveOld !in trouble && MoveNew !in trouble)
      ensures o.Done? || o.Leftover? <==> !o.Killed? && MoveOld !in trouble && MoveNew !in trouble
      ensures o.Leftover? ==> old(target).Some? && RemoveBackup in trouble
      ensures o.Done? ==> old(target).None? || RemoveBackup !in trouble
      ensures o.Done? ==> target == Some(Whole(bundle)) && backup.None? && current == Some(bundle)
      ensures o.Leftover? ==> target == Some(Whole(bundle)) && backup.Some? && current == Some(bundle)
      ensures o.Failed? ==>
                && current == old(current)
                && if MoveOld !in trouble && MoveNew in trouble && RollBack in trouble && old(target).Some?
                   then target.None? && backup == old(target) else target == old(target) && backup.None?
      ensures o.Killed? && !(target == Some(Whole(bundle)) && current == Some(bundle)) ==>
                current == old(current) && Untouched(old(target), None, target, backup)
    {
      var had := target.Some?;
      var alive := Tick();
      if !alive || MoveOld in trouble {
        return if alive then Failed else Killed;
      }
      if had {
        target, backup := None, target;
      }
      alive := Tick();
      if !alive {
        return Killed;
      }
      if MoveNew in trouble {
        if had {
          alive := Tick();
          if !alive {
            return Killed;
          }
          if RollBack !in trouble {
            target, backup := backup, None;
          }
        }
        return Failed;
      }
      target, stage, current := stage, None, Some(bundle);
      if had {
        alive := Tick();
        if !alive || RemoveBackup in trouble {
          var begun: bool := *;
          backup := if begun then Some(Remains) else backup;
          return if alive then Leftover else Killed;
        }
        backup := None;
      }
      o := Done;
    }

    /** WriteAtomicGuarded between taking and releasing the lock. */
    method InstallLocked(built: Option<Bundle>, approved: bool, trouble: set<Step>) returns (o: Outcome)
      requires Kept() && TakeLock !in trouble
      modifies this`stage, this`target, this`backup, this`power, this`current
      ensures Kept() && power <= old(power) <= power + 7 && (o.Killed? ==> power == 0) && !o.Busy?
      ensures current == old(current) || (Favourable(built, approved, old(backup), trouble) && current == built)
      ensures o.Done? || o.Leftover? <==> !o.Killed? && Favourable(built, approved, old(backup), trouble)
      ensures o.Leftover? ==> old(target).Some? && RemoveBackup in trouble
      ensures o.Done? ==> old(target).None? || RemoveBackup !in trouble
      ensures o.Done? || o.Leftover? ==> current == built && target == Some(Whole(built.value))
      ensures o.Done? ==> backup.None?
      ensures o.Failed? ==>
                && current == old(current)
                && if Stranded(built, approved, old(target), old(backup), trouble)
                   then target.None? && backup == old(target) else target == old(target) && backup == old(backup)
      ensures old(backup).Some? ==> target == old(target) && backup == old(backup)
      ensures o.Killed? && !(built.Some? && target == Some(Whole(built.value)) && current == built) ==>
                current == old(current) && Untouched(old(target), old(backup), target, backup)
    {
      var alive := Tick();
      if !alive || OpenStage in trouble {
        return if alive then Failed else Killed;
      }
      alive := Build(built);
      if !alive || built.None? {
        return if alive then Failed else Killed;
      }
      alive := Tick();
      if !alive || !approved {
        return if alive then Failed else Killed;
      }
      if FindBackup in trouble || backup.Some? {
        return Failed;
      }
      o := Replace(built.value, trouble);
    }

    /** WriteAtomicGuarded with a build that gives `built`, a guard that gives `approved`
        and a file system that refuses the steps in `trouble`. A call that is not killed
        installs the new bundle exactly if there is no lock and everything is favourable;
        the lock of a running or killed call keeps every other call away. */
    method Install(built: Option<Bundle>, approved: bool, trouble: set<Step>) returns (o: Outcome)
      requires Kept()
      modifies this
      ensures Kept() && (o.Killed? ==> power == 0) && power <= old(power)
      ensures old(power) >= STEPS_OF_A_CALL ==> !o.Killed?
      ensures current == old(current)
              || (Favourable(built, approved, old(backup), trouble) && !old(lock) && current == built)
      ensures o.Done? || o.Leftover?
              <==> !o.Killed? && !old(lock) && Favourable(built, approved, old(backup), trouble)
      ensures o.Leftover? ==> old(target).Some? && RemoveBackup in trouble
      ensures o.Done? ==> old(target).None? || RemoveBackup !in trouble
      ensures o.Done? || o.Leftover? ==> current == built && target == Some(Whole(built.value))
      ensures o.Done? ==> backup.None?
      ensures o.Failed? ==>
                && current == old(current)
                && if !old(lock) && Stranded(built, approved, old(target), old(backup), trouble)
                   then target.None? && backup == old(target) else target == old(target) && backup == old(backup)
      ensures o.Busy? <==> !o.Killed? && old(lock) && TakeLock !in trouble
      ensures old(lock) ==> lock && stage == old(stage) && current == old(current)
      ensures old(lock) || old(backup).Some? ==> target == old(target) && backup == old(backup)
      ensures !old(lock) && !o.Killed? ==> !lock && (TakeLock !in trouble ==> stage.None?)
      ensures o.Killed? && !(built.Some? && target == Some(Whole(built.value)) && current == built) ==>
                current == old(current) && Untouched(old(target), old(backup), target, backup)
    {
      var alive := Tick();
      if !alive || TakeLock in trouble {
        return if alive then Failed else Killed;
      }
      if lock {
        return Busy;
      }
      lock := true;
      o := InstallLocked(built, approved, trouble);
      if o.Killed? {
        return;
      }
      alive := Tick();
      if !alive {
        return Killed;
      }
      stage := None;
      alive := Tick();
      if !alive {
        return Killed;
      }
      lock := false;
    }
  }

  /** Nothing has happened to the old bundle, or it has been moved to the backup,
      where there was none before. */
  predicate Untouched(oldTarget: Option<Dir>, oldBackup: Option<Dir>, target: Option<Dir>, backup: Option<Dir>) {
    || (target == oldTarget && backup == oldBackup)
    || (oldTarget.Some? && oldBackup.None? && target.None? && backup == oldTarget)
  }

  /** Either a call, killed after some number of steps, or an operator who removes a
      lock that a killed call has left. */
  datatype Event = Call(built: Option<Bundle>, approved: bool, trouble: set<Step>, budget: nat) | RemoveLock

  /** Over any series of calls and crashes: the bundle installed last is never lost,
      and only bundles that were built and approved are ever installed. */
  method Run(i: Installation, events: seq<Event>)
    requires i.Kept()
    modifies i
    ensures i.Kept()
    ensures i.current == old(i.current) ||
            exists k :: 0 <= k < |events| && events[k].Call? && events[k].approved && events[k].built.Some?
                        && i.current == events[k].built
    ensures old(i.backup).Some? ==> i.target == old(i.target) && i.backup == old(i.backup)
                                    && i.current == old(i.current)
  {
    for n := 0 to |events|
      invariant i.Kept()
      invariant i.current == old(i.current) ||
                exists k :: 0 <= k < n && events[k].Call? && events[k].approved && events[k].built.Some?
                            && i.current == events[k].built
      invariant old(i.backup).Some? ==> i.target == old(i.target) && i.backup == old(i.backup)
                                        && i.current == old(i.current)
    {
      if events[n].RemoveLock? {
        i.lock := false;
      } else {
        i.power := events[n].budget;
        var _ := i.Install(events[n].built, events[n].approved, events[n].trouble);
      }
    }
  }
}
