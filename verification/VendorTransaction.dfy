/** The stage, backup, swap and register transaction of src/stagemesh/capability_vendor.py.

    Every primitive may fail: `Faults` says which ones do and, where the source can raise more than an OSError, with what.
    The registry write is atomic (os.replace of a temporary file).
 */
module VendorTransaction {
  import opened Prelude

  /** A directory with everything in it, by identity: every mkdtemp makes a new one. */
  type Content = nat

  type Registry = nat

  /** What is at a path. A recursive deletion that fails leaves a damaged directory. */
  datatype Slot =
    | Missing
    | EmptyDirectory
    | Directory(content: Content)
    | Damaged(was: Slot)
    | DanglingLink
    | NotADirectory   // a link to something, or a file

  /** The stage is a directory that was made for this run. */
  predicate MadeAfter(staged: Content, s: Slot) {
    match s
    case Directory(content) => content != staged
    case Damaged(was) => MadeAfter(staged, was)
    case _ => true
  }

  predicate Exists(s: Slot) {
    !s.Missing? && !s.DanglingLink?
  }

  predicate IsDirectory(s: Slot) {
    s.EmptyDirectory? || s.Directory? || s.Damaged?
  }

  datatype Exception =
    | Refusal      // CapabilityRegistryError
    | OsError
    | Unexpected   // any other Exception
    | Interrupt    // a KeyboardInterrupt, which is no Exception

  /** How a deletion of the target goes. */
  datatype Removal = Removes | DamagesOnly | RefusesFirst

  datatype Faults = Faults(
    prepare: Option<Exception>,    // checking and creating the vendor root
    lockOpen: bool,
    staging: Option<Exception>,    // mkdtemp, reading the source again, writing and validating the stage
    backupMkdtemp: bool,
    backupRmdir: bool,
    backupMove: bool,
    swap: bool,
    register: Option<Exception>,   // everything register_capability does, up to and including the registry write
    remove: Removal,               // _remove_exact_target
    restore: bool,                 // the restoring move beside it
    removeAgain: bool,             // rmtree in _restore_backup; its errors are ignored
    restoreAgain: bool,            // the restoring move in _restore_backup
    lockClose: bool,
    lockUnlink: bool)

  /** The outer handlers of the try statement. */
  predicate Handled(e: Exception) {
    e == Refusal || e == OsError
  }

  datatype Disk = Disk(target: Slot, registry: Registry, locked: bool)

  // ---------------------------------------------------------------------------------------------------------------
  // What a run does, in terms of the faults
  // ---------------------------------------------------------------------------------------------------------------

  predicate TakesLock(before: Disk, f: Faults) {
    f.prepare.None? && !before.locked && !f.lockOpen
  }

  /** Everything before the target is touched went well. */
  predicate Staged(update: bool, before: Disk, f: Faults) {
    && TakesLock(before, f) && f.staging.None?
    && (if update then !Exists(before.target) || IsDirectory(before.target) else before.target.Missing?)
  }

  predicate MovesBackup(update: bool, before: Disk) {
    update && Exists(before.target)
  }

  predicate BackupTaken(update: bool, before: Disk, f: Faults) {
    MovesBackup(update, before) ==> !f.backupMkdtemp && !f.backupRmdir && !f.backupMove
  }

  predicate Swapped(update: bool, before: Disk, f: Faults) {
    Staged(update, before, f) && BackupTaken(update, before, f) && !f.swap && before.target != DanglingLink
  }

  /** The registration returned: this is the commit point. */
  predicate Committed(update: bool, before: Disk, f: Faults) {
    Swapped(update, before, f) && f.register.None?
  }

  /** The new directory could be taken away again, and the old one put back. */
  predicate UndoneAfterRegister(update: bool, before: Disk, f: Faults) {
    if !MovesBackup(update, before) then f.remove.Removes?
    else if f.remove.Removes? then !f.restore || !f.restoreAgain
    else !f.removeAgain && !f.restoreAgain
  }

  /** A run that does not commit leaves the target as it was, except in these cases: the empty directory that only
      reserved the backup's name could not be removed and is taken for the backup; or the old directory, or nothing,
      could not be put back, which is not even tried after an interrupt. */
  predicate RollbackFails(update: bool, before: Disk, f: Faults) {
    || (&& Staged(update, before, f) && MovesBackup(update, before)
        && !f.backupMkdtemp && f.backupRmdir
        && !(before.target.EmptyDirectory? && !f.removeAgain && !f.restoreAgain))
    || (&& Staged(update, before, f) && MovesBackup(update, before) && BackupTaken(update, before, f)
        && f.swap && f.restoreAgain)
    || (Swapped(update, before, f) && f.register.Some?
        && (f.register == Some(Interrupt) || !UndoneAfterRegister(update, before, f)))
  }

  /** The whole effect of one run. */
  ghost predicate Effect(
    update: bool, before: Disk, staged: Content, newRegistry: Registry, f: Faults, after: Disk, error: Option<Exception>)
  {
    && (if Committed(update, before, f) then
          after.target == Directory(staged) && after.registry == newRegistry
        else
          after.registry == before.registry && (after.target == before.target <==> !RollbackFails(update, before, f)))
    && (after.locked <==> before.locked || (TakesLock(before, f) && f.lockUnlink))
    && (error.None? <==> Committed(update, before, f) && !f.lockClose)
  }

  /** Where the body of the try statement stops, and what it leaves. */
  ghost predicate Attempted(
    update: bool, before: Disk, staged: Content, newRegistry: Registry, f: Faults,
    target: Slot, hasBackup: bool, backup: Slot, registry: Registry, error: Option<Exception>)
  {
    && (error.None? <==> Committed(update, before, f))
    && registry == (if error.None? then newRegistry else before.registry)
    && (hasBackup ==> MovesBackup(update, before))
    && if error.None? then target == Directory(staged) && !hasBackup
       else if !Staged(update, before, f) then !hasBackup && target == before.target
       else if !BackupTaken(update, before, f) then
         && target == before.target && error == Some(OsError) && (hasBackup <==> !f.backupMkdtemp)
         && backup == if hasBackup && f.backupRmdir then EmptyDirectory else Missing
       else
         && (hasBackup <==> MovesBackup(update, before))
         && if Swapped(update, before, f) then
              AttemptedRegistration(before, staged, f, target, hasBackup, backup, error)
            else
              && error == Some(OsError)
              && if hasBackup then target == Missing && backup == before.target else target == before.target
  }

  /** What is left when the registration was refused: the new directory is deleted and the old one moved back, or not. */
  ghost predicate AttemptedRegistration(
    before: Disk, staged: Content, f: Faults, target: Slot, hasBackup: bool, backup: Slot, error: Option<Exception>)
  {
    if f.register == Some(Interrupt) then error == f.register && target == Directory(staged)
    else if f.remove.Removes? && (!hasBackup || !f.restore) then
      && error == f.register
      && (hasBackup || before.target == Missing) && target == before.target && backup == Missing
    else if f.remove.Removes? then
      error == Some(OsError) && target == Missing && backup == before.target
    else
      && error.Some? && Handled(error.value)
      && target == (if f.remove.DamagesOnly? then Damaged(Directory(staged)) else Directory(staged))
      && (hasBackup ==> backup == before.target)
  }

  /** What `_restore_backup` makes of the target. */
  function Restored(f: Faults, target: Slot, hasBackup: bool, backup: Slot): Slot {
    if !hasBackup || !Exists(backup) then target
    else if Exists(target) && f.removeAgain then Damaged(target)
    else if !f.restoreAgain && target != DanglingLink then backup
    else if Exists(target) then Missing
    else target
  }

  /** Rolling back gives the old target back exactly when it does not fail. */
  lemma {:induction false} RollbackExactlyWhen(
    update: bool, before: Disk, staged: Content, newRegistry: Registry, f: Faults,
    target: Slot, hasBackup: bool, backup: Slot, registry: Registry, error: Option<Exception>)
    requires MadeAfter(staged, before.target) && error.Some?
    requires Attempted(update, before, staged, newRegistry, f, target, hasBackup, backup, registry, error)
    ensures var final := if Handled(error.value) then Restored(f, target, hasBackup, backup) else target;
      final == before.target <==> !RollbackFails(update, before, f)
  {
    DamageShows(target);
    assert !MadeAfter(staged, Directory(staged)) && !MadeAfter(staged, Damaged(Directory(staged)));
  }

  lemma {:induction false} DamageShows(s: Slot)
    ensures Damaged(s) != s
  {
    if s.Damaged? {
      DamageShows(s.was);
    }
  }

  class VendorProject {
    var target: Slot
    var backup: Slot
    var hasBackup: bool
    var registry: Registry
    var locked: bool
    var ownsLock: bool

    function Snapshot(): Disk
      reads this
    {
      Disk(target, registry, locked)
    }

    /** The body of the try statement. */
    method Attempt(update: bool, staged: Content, newRegistry: Registry, f: Faults) returns (error: Option<Exception>)
      requires !hasBackup && !ownsLock && backup == Missing && MadeAfter(staged, target)
      modifies this
      ensures ownsLock <==> TakesLock(old(Snapshot()), f)
      ensures locked <==> old(locked) || ownsLock
      ensures Attempted(update, old(Snapshot()), staged, newRegistry, f, target, hasBackup, backup, registry, error)
    {
      if f.prepare.Some? {
        return f.prepare;
      }
      if locked || f.lockOpen {
        return Some(OsError);
      }
      locked, ownsLock := true, true;
      if f.staging.Some? {
        return f.staging;
      }
      if !update && !target.Missing? {
        return Some(Refusal);
      }
      if update && Exists(target) {
        if !IsDirectory(target) {
          return Some(Refusal);
        }
        if f.backupMkdtemp {
          return Some(OsError);
        }
        hasBackup, backup := true, EmptyDirectory;
        if f.backupRmdir {
          return Some(OsError);
        }
        backup := Missing;
        if f.backupMove {
          return Some(OsError);
        }
        backup, target := target, Missing;
      }
      if f.swap || target == DanglingLink {
        return Some(OsError);
      }
      target := Directory(staged);
      if f.register == Some(Interrupt) {
        return f.register;
      }
      if f.register.Some? {
        match f.remove {
          case RefusesFirst =>
            return Some(Refusal);
          case DamagesOnly =>
            target := Damaged(target);
            return Some(OsError);
          case Removes =>
            target := Missing;
        }
        if hasBackup && Exists(backup) {
          if f.restore {
            return Some(OsError);
          }
          target, backup := backup, Missing;
        }
        return f.register;
      }
      registry := newRegistry;
      if hasBackup {
        hasBackup, backup := false, Missing;
      }
      return None;
    }

    /** `_restore_backup`. */
    method RestoreBackup(f: Faults) returns (error: Option<Exception>)
      modifies this`target, this`backup
      ensures target == Restored(f, old(target), hasBackup, old(backup))
      ensures error.None? ==> target == if hasBackup && Exists(old(backup)) then old(backup) else old(target)
    {
      if !hasBackup || !Exists(backup) {
        return None;
      }
      if Exists(target) {
        target := if f.removeAgain then Damaged(target) else Missing;
      }
      if f.restoreAgain || !target.Missing? {
        return Some(OsError);
      }
      target, backup := backup, Missing;
      return None;
    }

    method VendorCapability(update: bool, staged: Content, newRegistry: Registry, f: Faults)
      returns (error: Option<Exception>)
      requires !hasBackup && !ownsLock && backup == Missing && MadeAfter(staged, target)
      modifies this
      ensures Effect(update, old(Snapshot()), staged, newRegistry, f, Snapshot(), error)
    {
      ghost var before := Snapshot();
      error := Attempt(update, staged, newRegistry, f);
      if error.Some? {
        RollbackExactlyWhen(
          update, before, staged, newRegistry, f, target, hasBackup, backup, registry, error);
      }
      if error.Some? && Handled(error.value) {
        var again := RestoreBackup(f);
      }
      if ownsLock {
        locked := f.lockUnlink;
        if f.lockClose {
          error := Some(OsError);
        }
      }
    }
  }

  // ---------------------------------------------------------------------------------------------------------------
  // All or nothing
  // ---------------------------------------------------------------------------------------------------------------

  /** The new directory can be deleted after a refused registration; a refresh has a second chance. */
  predicate RemovalWorks(update: bool, before: Disk, f: Faults) {
    f.remove.Removes? || (MovesBackup(update, before) && !f.removeAgain)
  }

  /** The name of the backup was reserved and could not be released, beside a directory that is not empty anyway. */
  predicate LosesTargetToReservation(update: bool, before: Disk, f: Faults) {
    && Staged(update, before, f) && MovesBackup(update, before) && !f.backupMkdtemp && f.backupRmdir
    && (before.target != EmptyDirectory || f.removeAgain)
  }

  /** All or nothing, given that the last restoring move works: a run whose registration returned leaves the new directory
      and the new registry; any other run leaves the old ones, whatever failed, if and only if the backup's reserved
      name could be released, the registration was not interrupted, and the directory of a refused registration could be
      deleted. The lock is released. */
  lemma {:induction false} VendoringIsAllOrNothing(
    update: bool, before: Disk, staged: Content, newRegistry: Registry, f: Faults, after: Disk, error: Option<Exception>)
    requires !f.restoreAgain && Effect(update, before, staged, newRegistry, f, after, error)
    ensures Committed(update, before, f) ==> after.target == Directory(staged) && after.registry == newRegistry
    ensures !Committed(update, before, f) ==>
      (after.target == before.target && after.registry == before.registry
       <==> (&& !LosesTargetToReservation(update, before, f)
             && (Swapped(update, before, f) ==>
                   f.register != Some(Interrupt) && RemovalWorks(update, before, f))))
    ensures error.None? ==> Committed(update, before, f)
    ensures !f.lockUnlink ==> after.locked == before.locked
  {
    if !Committed(update, before, f) && Swapped(update, before, f) {
      assert UndoneAfterRegister(update, before, f) <==> RemovalWorks(update, before, f);
    }
  }

  /** A run leaves the new directory and the new registry if and only if nothing failed up to the registry write; a run that
      is no update needs a free target, and an update a directory or nothing. */
  lemma {:induction false} CommitsExactlyWhen(
    update: bool, before: Disk, staged: Content, newRegistry: Registry, f: Faults, after: Disk, error: Option<Exception>)
    requires Effect(update, before, staged, newRegistry, f, after, error) && newRegistry != before.registry
    ensures after.registry == newRegistry <==>
      && f.prepare.None? && !f.lockOpen && !before.locked && f.staging.None? && !f.swap && f.register.None?
      && (match before.target
          case Missing => true
          case EmptyDirectory => update && !f.backupMkdtemp && !f.backupRmdir && !f.backupMove
          case Directory(_) => update && !f.backupMkdtemp && !f.backupRmdir && !f.backupMove
          case Damaged(_) => update && !f.backupMkdtemp && !f.backupRmdir && !f.backupMove
          case DanglingLink => false
          case NotADirectory => false)
    ensures after.registry == newRegistry ==> after.target == Directory(staged)
    ensures after.registry == newRegistry || after.registry == before.registry
    ensures error.None? <==> after.registry == newRegistry && !f.lockClose
  {
  }

  /** A target that is not free is never touched by a run that is no update, nor is a link or a file by any run. */
  lemma {:induction false} UnsafeTargetsStay(
    update: bool, before: Disk, staged: Content, newRegistry: Registry, f: Faults, after: Disk, error: Option<Exception>)
    requires Effect(update, before, staged, newRegistry, f, after, error)
    requires before.target.NotADirectory? || before.target.DanglingLink? || (!update && !before.target.Missing?)
    ensures after.target == before.target && after.registry == before.registry && error.Some?
  {
  }

  /** One failing rmdir is enough: when only the release of the backup's reserved name fails, a refresh loses the
      vendored directory although every deletion and every restoring move works. */
  lemma {:induction false} ReservationDestroysTheTarget(
    content: Content, staged: Content, registry: Registry, newRegistry: Registry, after: Disk, error: Option<Exception>)
    requires Effect(true, Disk(Directory(content), registry, false), staged, newRegistry,
                    NO_FAULTS.(backupRmdir := true), after, error)
    ensures error.Some? && after.registry == registry && after.target != Directory(content)
  {
    assert RollbackFails(true, Disk(Directory(content), registry, false), NO_FAULTS.(backupRmdir := true));
  }

  /** An interrupt of the registration leaves the new directory with the old registry. */
  lemma {:induction false} InterruptLeavesTheNewDirectory(
    before: Disk, staged: Content, newRegistry: Registry, after: Disk, error: Option<Exception>)
    requires before.target.Missing? && !before.locked
    requires Effect(false, before, staged, newRegistry, NO_FAULTS.(register := Some(Interrupt)), after, error)
    ensures error.Some? && after.registry == before.registry && after.target != before.target
  {
    assert RollbackFails(false, before, NO_FAULTS.(register := Some(Interrupt)));
  }

  const NO_FAULTS := Faults(None, false, None, false, false, false, false, None, Removes, false, false, false, false, false)
}
