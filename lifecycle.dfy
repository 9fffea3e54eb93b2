/**
 * The lifecycle guard of src/main.rs: the process-wide `CLEANUP_STATE`
 * marker (`Mutex<Option<PathBuf>>`), armed by `run_command`, taken by the
 * signal handler's `perform_cleanup` and cleared by `cleanup_temp_directory`,
 * and the order in which one run drives it. Each access to the marker is one
 * atomic step; the deletions are recorded in a log, one entry per
 * `remove_dir_all` call, whatever its outcome.
 */
module Lifecycle {
  import opened Wrappers
  import opened Paths

  /** The marker's content and the log of the deletions attempted so far. */
  datatype Marker = Marker(pending: Option<Path>, deleted: seq<Path>)

  /** The marker before any run: empty, nothing deleted. */
  const Initial: Marker := Marker(None, [])

  /** `*cleanup_state = Some(temp_path)` (src/main.rs:92-93): arming overwrites. */
  function ArmStep(m: Marker, path: Path): (r: Marker)
    ensures r.pending == Some(path) && r.deleted == m.deleted
  {
    m.(pending := Some(path))
  }

  /** `perform_cleanup`: take the marker, and delete what was in it, if anything. */
  function PerformCleanupStep(m: Marker): (r: Marker)
    ensures r.pending.None?
    ensures m.pending.None? ==> r.deleted == m.deleted
    ensures m.pending.Some? ==> r.deleted == m.deleted + [m.pending.value]
  {
    match m.pending
    case None => m
    case Some(path) => Marker(None, m.deleted + [path])
  }

  /**
   * `cleanup_temp_directory(temp_path, should_keep)`: clear the marker,
   * then delete `temp_path` unless keeping it; what the marker held plays no
   * part.
   */
  function CleanupTempDirectoryStep(m: Marker, path: Path, keep: bool): (r: Marker)
    ensures r.pending.None?
    ensures r.deleted == if keep then m.deleted else m.deleted + [path]
  {
    Marker(None, if keep then m.deleted else m.deleted + [path])
  }

  /** A second `perform_cleanup` deletes nothing. */
  lemma PerformCleanupTwice(m: Marker)
    ensures PerformCleanupStep(PerformCleanupStep(m)) == PerformCleanupStep(m)
    ensures |PerformCleanupStep(m).deleted| <= |m.deleted| + 1
  {
  }

  /** After the normal path has cleared the marker, a late `perform_cleanup` deletes nothing. */
  lemma PerformCleanupAfterCleanup(m: Marker, path: Path, keep: bool)
    ensures PerformCleanupStep(CleanupTempDirectoryStep(m, path, keep)) == CleanupTempDirectoryStep(m, path, keep)
  {
  }

  /** `let should_keep = keep || config.keep.unwrap_or(false)`. */
  function ShouldKeep(keepFlag: bool, configKeep: Option<bool>): (r: bool)
    ensures r <==> keepFlag || configKeep == Some(true)
  {
    keepFlag || (if configKeep.Some? then configKeep.value else false)
  }

  /** The two notifications the Unix signal watcher waits for. */
  datatype Signal = SigInt | SigTerm

  function SignalNumber(s: Signal): (n: nat) {
    match s
    case SigInt => 2
    case SigTerm => 15
  }

  /** The exit codes of `setup_signal_handler`: 130 for SIGINT, 143 for SIGTERM. */
  function ExitCodeFor(s: Signal): (code: nat)
    ensures code == 128 + SignalNumber(s)
  {
    match s
    case SigInt => 130
    case SigTerm => 143
  }

  lemma ExitCodesDistinct()
    ensures ExitCodeFor(SigInt) == 130 && ExitCodeFor(SigTerm) == 143
    ensures forall a: Signal, b: Signal :: ExitCodeFor(a) == ExitCodeFor(b) ==> a == b
  {
  }

  /**
   * What `cleanup_temp_directory` should do: take the marker and delete only
   * what it held, unless keeping. Whichever of this and `perform_cleanup`
   * comes first, the other then finds the marker empty.
   */
  function GuardedCleanupStep(m: Marker, keep: bool): (r: Marker)
    ensures r.pending.None?
    ensures r.deleted == if !keep && m.pending.Some? then m.deleted + [m.pending.value] else m.deleted
  {
    if keep then m.(pending := None) else PerformCleanupStep(m)
  }

  /**
   * The guarded cleanup and the signal cleanup, in either order, delete what
   * the marker held at most once between them.
   */
  lemma GuardedCleanupRacesSafely(m: Marker, keep: bool)
    ensures PerformCleanupStep(GuardedCleanupStep(m, keep)) == GuardedCleanupStep(m, keep)
    ensures GuardedCleanupStep(PerformCleanupStep(m), keep) == PerformCleanupStep(m)
    ensures |PerformCleanupStep(m).deleted| <= |m.deleted| + 1
  {
  }

  /**
   * As written, `cleanup_temp_directory` after the signal cleanup calls
   * `remove_dir_all` on the path a second time, which then finds it gone.
   */
  lemma CleanupAfterSignalCleanupDeletesAgain(path: Path)
    ensures CleanupTempDirectoryStep(PerformCleanupStep(ArmStep(Initial, path)), path, false).deleted == [path, path]
  {
  }

  /** When a signal arrives in a run, if one does. */
  datatype SignalTiming =
    | NoSignal
      /**
       * While the workspace is in use: the watcher takes the marker, deletes
       * what it held and exits while the main task is still in the checkout
       * or the command.
       */
    | DuringWork(signal: Signal)
      /**
       * As the work ends: the watcher's `perform_cleanup` has returned, and the
       * main task reaches its cleanup (or its early return) before the
       * watcher's `std::process::exit`.
       */
    | RacingCleanup(signal: Signal)
      /**
       * After the main task is done with the workspace (its cleanup, or its
       * early return on failure) and before the watcher is aborted or dropped.
       */
    | AfterWork(signal: Signal)

  /** How a run ends. */
  datatype Exit =
    | Completed
      /** Checkout or the command failed; `run_command` returns the error. */
    | Failed
      /** The watcher's `std::process::exit`. */
    | ExitedWith(code: nat)
      /** No watcher was started (keep mode): the signal's default action ends the process. */
    | KilledBy(signal: Signal)

  /** How a run ended, and the marker it left. */
  datatype RunOutcome = RunOutcome(marker: Marker, exit: Exit)

  /**
   * The part of `run_command` from arming on, as written (src/main.rs:91-118):
   * arm unless keeping, start the watcher unless keeping, do the work
   * (checkout, then the command), then clean up. A failed step returns
   * through `?`, past `cleanup_temp_directory`; the watcher stays registered
   * until `main` returns, so a signal in that window still takes the armed
   * marker.
   */
  function AsWrittenRun(keep: bool, workspace: Path, workOk: bool, timing: SignalTiming): (r: RunOutcome)
    ensures forall i :: 0 <= i < |r.marker.deleted| ==> r.marker.deleted[i] == workspace
  {
    var armed := if keep then Initial else ArmStep(Initial, workspace);
    if timing.DuringWork? then
      if keep then RunOutcome(armed, KilledBy(timing.signal))
      else RunOutcome(PerformCleanupStep(armed), ExitedWith(ExitCodeFor(timing.signal)))
    else if timing.RacingCleanup? then
      if keep then RunOutcome(armed, KilledBy(timing.signal))
      else
        var taken := PerformCleanupStep(armed);
        var done := if workOk then CleanupTempDirectoryStep(taken, workspace, keep) else taken;
        RunOutcome(done, ExitedWith(ExitCodeFor(timing.signal)))
    else
      var done := if workOk then CleanupTempDirectoryStep(armed, workspace, keep) else armed;
      if timing.AfterWork? then
        if keep then RunOutcome(done, KilledBy(timing.signal))
        else RunOutcome(PerformCleanupStep(done), ExitedWith(ExitCodeFor(timing.signal)))
      else RunOutcome(done, if workOk then Completed else Failed)
  }

  /**
   * The run as intended: the main task's cleanup is `GuardedCleanupStep`,
   * and a failed checkout or command still goes through it before the error
   * is returned.
   */
  function GuardedRun(keep: bool, workspace: Path, workOk: bool, timing: SignalTiming): (r: RunOutcome)
    ensures forall i :: 0 <= i < |r.marker.deleted| ==> r.marker.deleted[i] == workspace
  {
    var armed := if keep then Initial else ArmStep(Initial, workspace);
    if timing.DuringWork? then
      if keep then RunOutcome(armed, KilledBy(timing.signal))
      else RunOutcome(PerformCleanupStep(armed), ExitedWith(ExitCodeFor(timing.signal)))
    else if timing.RacingCleanup? then
      if keep then RunOutcome(armed, KilledBy(timing.signal))
      else RunOutcome(GuardedCleanupStep(PerformCleanupStep(armed), keep), ExitedWith(ExitCodeFor(timing.signal)))
    else
      var done := GuardedCleanupStep(armed, keep);
      if timing.AfterWork? then
        if keep then RunOutcome(done, KilledBy(timing.signal))
        else RunOutcome(PerformCleanupStep(done), ExitedWith(ExitCodeFor(timing.signal)))
      else RunOutcome(done, if workOk then Completed else Failed)
  }

  /** In keep mode the marker is never armed, no watcher is started, so no signal exit code is produced. */
  lemma KeepNeverArms(workspace: Path, workOk: bool, timing: SignalTiming)
    ensures AsWrittenRun(true, workspace, workOk, timing).marker == Initial
    ensures GuardedRun(true, workspace, workOk, timing).marker == Initial
    ensures !AsWrittenRun(true, workspace, workOk, timing).exit.ExitedWith?
    ensures !GuardedRun(true, workspace, workOk, timing).exit.ExitedWith?
  {
  }

  /**
   * As written, `remove_dir_all` is called on nothing but the workspace. It
   * is called on it twice exactly when the signal cleanup is followed by the
   * main task's `cleanup_temp_directory` after a successful command, the
   * second call finding it gone; on every other path at most once.
   */
  lemma AsWrittenRunDeletions(keep: bool, workspace: Path, workOk: bool, timing: SignalTiming)
    ensures var d := AsWrittenRun(keep, workspace, workOk, timing).marker.deleted;
      && |d| <= 2
      && (|d| == 2 <==> !keep && workOk && timing.RacingCleanup?)
  {
  }

  /**
   * As written, SIGINT or SIGTERM arriving as a successful command finishes
   * makes both cleanups call `remove_dir_all` on the workspace; the main
   * task's call then finds it gone and reports an error.
   */
  lemma AsWrittenRunDeletesTwiceInRace(workspace: Path, signal: Signal)
    ensures AsWrittenRun(false, workspace, true, RacingCleanup(signal)).marker.deleted == [workspace, workspace]
    ensures GuardedRun(false, workspace, true, RacingCleanup(signal)).marker.deleted == [workspace]
  {
  }

  /**
   * As intended, a run that does not keep its workspace deletes it exactly
   * once on every path and every modelled signal timing, and leaves the marker empty;
   * a kept workspace is never deleted.
   */
  lemma GuardedRunDeletesExactlyOnce(keep: bool, workspace: Path, workOk: bool, timing: SignalTiming)
    ensures GuardedRun(keep, workspace, workOk, timing).marker.pending.None?
    ensures GuardedRun(keep, workspace, workOk, timing).marker.deleted == if keep then [] else [workspace]
  {
  }

  /**
   * As written, a failed checkout or command with no signal leaves the
   * workspace on disk and the marker armed with it: nothing deletes it.
   */
  lemma AsWrittenRunLeaksOnFailure(workspace: Path)
    ensures AsWrittenRun(false, workspace, false, NoSignal) == RunOutcome(Marker(Some(workspace), []), Failed)
    ensures GuardedRun(false, workspace, false, NoSignal) == RunOutcome(Marker(None, [workspace]), Failed)
  {
  }

  /**
   * On success the two versions agree, except in the race, where the
   * version as written deletes the workspace once more.
   */
  lemma GuardedRunAgreesOnSuccess(keep: bool, workspace: Path, timing: SignalTiming)
    ensures !(timing.RacingCleanup? && !keep) ==> AsWrittenRun(keep, workspace, true, timing) == GuardedRun(keep, workspace, true, timing)
    ensures timing.RacingCleanup? && !keep ==>
              && AsWrittenRun(keep, workspace, true, timing).exit == GuardedRun(keep, workspace, true, timing).exit
              && AsWrittenRun(keep, workspace, true, timing).marker.deleted
                 == GuardedRun(keep, workspace, true, timing).marker.deleted + [workspace]
  {
  }

  /** The exit code reports the signal that ended the run, and only a signal ends it with an exit code. */
  lemma GuardedRunExitCode(keep: bool, workspace: Path, workOk: bool, timing: SignalTiming)
    ensures GuardedRun(keep, workspace, workOk, timing).exit.ExitedWith?
            <==> !keep && !timing.NoSignal?
    ensures GuardedRun(keep, workspace, workOk, timing).exit.ExitedWith? ==>
              GuardedRun(keep, workspace, workOk, timing).exit.code == 128 + SignalNumber(timing.signal)
  {
  }

  /**
   * `CLEANUP_STATE`, an object whose field the three entry points update,
   * with a ghost log of the deletions they attempt.
   */
  class CleanupState {
    var pending: Option<Path>
    ghost var deleted: seq<Path>

    ghost function State(): (m: Marker)
      reads this
    {
      Marker(pending, deleted)
    }

    /** `Lazy::new(|| Mutex::new(None))`. */
    constructor ()
      ensures State() == Initial
    {
      pending := None;
      deleted := [];
    }

    /** The arming in `run_command` (src/main.rs:91-94). */
    method Arm(path: Path)
      modifies this
      ensures State() == ArmStep(old(State()), path)
    {
      pending := Some(path);
    }

    /** `perform_cleanup`: `take()` the marker, then remove what it held. */
    method PerformCleanup()
      modifies this
      ensures State() == PerformCleanupStep(old(State()))
    {
      var taken := pending;
      pending := None;
      if taken.Some? {
        deleted := deleted + [taken.value];
      }
    }

    /** `cleanup_temp_directory`: clear the marker, then remove `path` unless keeping. */
    method CleanupTempDirectory(path: Path, keep: bool)
      modifies this
      ensures State() == CleanupTempDirectoryStep(old(State()), path, keep)
    {
      pending := None;
      if !keep {
        deleted := deleted + [path];
      }
    }

    /** The intended `cleanup_temp_directory`: `take()` the marker and remove only what it held, unless keeping. */
    method GuardedCleanup(keep: bool)
      modifies this
      ensures State() == GuardedCleanupStep(old(State()), keep)
    {
      var taken := pending;
      pending := None;
      if !keep && taken.Some? {
        deleted := deleted + [taken.value];
      }
    }

    /** `run_command` from arming on, as written, with the signal at the given point. */
    method RunAsWritten(keep: bool, workspace: Path, workOk: bool, timing: SignalTiming) returns (exit: Exit)
      requires State() == Initial
      modifies this
      ensures RunOutcome(State(), exit) == AsWrittenRun(keep, workspace, workOk, timing)
    {
      if !keep {
        Arm(workspace);
      }
      if timing.DuringWork? {
        if keep {
          return KilledBy(timing.signal);
        }
        PerformCleanup();
        return ExitedWith(ExitCodeFor(timing.signal));
      }
      if timing.RacingCleanup? {
        if keep {
          return KilledBy(timing.signal);
        }
        PerformCleanup();
        if workOk {
          CleanupTempDirectory(workspace, keep);
        }
        return ExitedWith(ExitCodeFor(timing.signal));
      }
      if workOk {
        CleanupTempDirectory(workspace, keep);
      }
      if timing.AfterWork? {
        if keep {
          return KilledBy(timing.signal);
        }
        PerformCleanup();
        return ExitedWith(ExitCodeFor(timing.signal));
      }
      return if workOk then Completed else Failed;
    }

    /** The run as intended: the guarded cleanup, also on the failure path. */
    method Run(keep: bool, workspace: Path, workOk: bool, timing: SignalTiming) returns (exit: Exit)
      requires State() == Initial
      modifies this
      ensures RunOutcome(State(), exit) == GuardedRun(keep, workspace, workOk, timing)
    {
      if !keep {
        Arm(workspace);
      }
      if timing.DuringWork? {
        if keep {
          return KilledBy(timing.signal);
        }
        PerformCleanup();
        return ExitedWith(ExitCodeFor(timing.signal));
      }
      if timing.RacingCleanup? {
        if keep {
          return KilledBy(timing.signal);
        }
        PerformCleanup();
        GuardedCleanup(keep);
        return ExitedWith(ExitCodeFor(timing.signal));
      }
      GuardedCleanup(keep);
      if timing.AfterWork? {
        if keep {
          return KilledBy(timing.signal);
        }
        PerformCleanup();
        return ExitedWith(ExitCodeFor(timing.signal));
      }
      return if workOk then Completed else Failed;
    }
  }
}
