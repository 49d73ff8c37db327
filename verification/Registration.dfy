/** The swap of a campaign's registration directory (campaigns/stage8.py). */
module Registration {
  import opened Wrappers

  // A rename either happens or fails and changes nothing; so does the removal of a directory.

  /** Which operations fail: removing a left-over backup, moving the old registration away,
      moving the new one in, removing the output, moving the backup back, removing the backup. */
  datatype Faults = Faults(clearBackup: bool, moveOld: bool, moveNew: bool, removeOutput: bool, restore: bool,
    removeBackup: bool)

  const NO_FAULTS := Faults(false, false, false, false, false, false)

  /** The registration directory, its backup and the staging directory beside it. */
  datatype Directories<T> = Directories(output: Option<T>, backup: Option<T>, staging: Option<T>)

  /** The swap gets to its renames. */
  predicate Begins<T>(d: Directories<T>, replaceExisting: bool, f: Faults) {
    (d.output.None? || replaceExisting) && (d.backup.None? || !f.clearBackup)
  }

  /** Both renames happen. */
  predicate Replaces<T>(d: Directories<T>, replaceExisting: bool, f: Faults) {
    Begins(d, replaceExisting, f) && (d.output.None? || !f.moveOld) && !f.moveNew
  }

  /** The swap ends without a registration in place: the rename of the old one failed and the
      clean-up removed it, or the other rename failed and so did moving the backup back. */
  predicate LeavesNone<T>(d: Directories<T>, replaceExisting: bool, f: Faults) {
    && Begins(d, replaceExisting, f) && d.output.Some?
    && if f.moveOld then !f.removeOutput else f.moveNew && f.restore
  }

  class RegistrationStore<T> {
    var output: Option<T>
    var backup: Option<T>
    var staging: Option<T>

    constructor (output: Option<T>, staging: T)
      ensures Now() == Directories(output, None, Some(staging))
    {
      this.output, this.backup, this.staging := output, None, Some(staging);
    }

    ghost function Now(): Directories<T>
      reads this
    {
      Directories(output, backup, staging)
    }

    /** The two renames. */
    method RenameBoth(f: Faults) returns (swapped: bool)
      requires backup.None? && staging.Some?
      modifies this
      ensures swapped <==> (old(output).None? || !f.moveOld) && !f.moveNew
      ensures swapped ==> Now() == Directories(old(staging), old(output), None)
      ensures !swapped ==>
                Now() == if f.moveOld && old(output).Some? then old(Now()) else Directories(None, old(output), old(staging))
    {
      if output.Some? {
        if f.moveOld { return false; }
        output, backup := None, output;
      }
      if f.moveNew { return false; }
      output, staging := staging, None;
      return true;
    }

    /** The clean-up after a failed rename. */
    method Undo(f: Faults)
      modifies `output, `backup
      ensures if old(output).Some? && f.removeOutput then unchanged(this)
              else if old(backup).Some? && !f.restore then output == old(backup) && backup == None
              else output == None && backup == old(backup)
    {
      if output.Some? {
        if f.removeOutput { return; }
        output := None;
      }
      if backup.Some? {
        if f.restore { return; }
        output, backup := backup, None;
      }
    }

    /** The registration is replaced, kept or gone from its place, each exactly when the failures
        say so; the old one stays in the backup when it was moved there and could be neither
        moved back nor removed. */
    method AtomicReplace(replaceExisting: bool, f: Faults) returns (ok: bool)
      requires staging.Some?
      modifies this
      ensures !old(Begins(Now(), replaceExisting, f)) ==> unchanged(this) && !ok
      ensures output == if old(Replaces(Now(), replaceExisting, f)) then old(staging)
                        else if old(LeavesNone(Now(), replaceExisting, f)) then None
                        else old(output)
      ensures old(output).Some? ==> (output in {old(output), old(staging)} <==> !old(LeavesNone(Now(), replaceExisting, f)))
      ensures staging == if old(Replaces(Now(), replaceExisting, f)) then None else old(staging)
      ensures old(Begins(Now(), replaceExisting, f)) ==>
                backup == if old(output).Some? && !f.moveOld && (!f.moveNew || f.restore) && f.removeBackup
                          then old(output) else None
      ensures ok <==> old(Replaces(Now(), replaceExisting, f)) && (old(output).None? || !f.removeBackup)
    {
      if output.Some? && !replaceExisting {
        return false;
      }
      if backup.Some? {
        if f.clearBackup { return false; }
        backup := None;
      }
      ok := RenameBoth(f);
      if !ok {
        Undo(f);
      }
      if backup.Some? {
        if f.removeBackup { return false; }
        backup := None;
      }
    }

    /** The same operations without failures, up to the point where the process is killed. */
    method ReplaceUntilKilled(replaceExisting: bool, survived: nat)
      requires staging.Some?
      modifies this
      ensures old(output).Some? && !replaceExisting ==> unchanged(this)
      ensures old(output).None? || replaceExisting ==>
                Now() == if survived == 0 then old(Now())
                         else if survived == 1 then Directories(old(output), None, old(staging))
                         else if survived == 2 then Directories(None, old(output), old(staging))
                         else if survived == 3 then Directories(old(staging), old(output), None)
                         else Directories(old(staging), None, None)
    {
      if output.Some? && !replaceExisting { return; }
      if survived == 0 { return; }
      backup := None;
      if survived == 1 { return; }
      output, backup := None, output;
      if survived == 2 { return; }
      output, staging := staging, None;
      if survived == 3 { return; }
      backup := None;
    }
  }

  /** One failed rename loses the old registration, though nothing replaced it. */
  method LostToFailedRename<T>(registered: T, next: T) returns (store: RegistrationStore<T>, ok: bool)
    ensures fresh(store) && !ok
    ensures store.output == None && store.backup == None && store.staging == Some(next)
  {
    store := new RegistrationStore<T>(Some(registered), next);
    ok := store.AtomicReplace(true, NO_FAULTS.(moveOld := true));
  }

  /** A kill between the renames leaves the old registration in the backup alone, and the next
      swap removes it before it tries to put anything in its place. */
  method LostAfterKill<T>(registered: T, next: T) returns (store: RegistrationStore<T>, ok: bool)
    ensures fresh(store) && !ok
    ensures store.output == None && store.backup == None && store.staging == Some(next)
  {
    store := new RegistrationStore<T>(Some(registered), next);
    store.ReplaceUntilKilled(true, 2);
    ok := store.AtomicReplace(true, NO_FAULTS.(moveNew := true));
  }

  /** Until a second swap, a kill keeps the old registration in one of the two places or has
      put the new one in. */
  method KillKeepsOne<T>(store: RegistrationStore<T>, replaceExisting: bool, survived: nat)
    requires store.staging.Some? && store.output.Some?
    modifies store
    ensures store.output in {old(store.output), old(store.staging)}
            || (store.output == None && store.backup == old(store.output))
    ensures store.output == None <==> replaceExisting && survived == 2
  {
    store.ReplaceUntilKilled(replaceExisting, survived);
  }
}
