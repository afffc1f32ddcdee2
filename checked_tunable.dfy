/** rpk's checked tunable (src/go/pkg/tuners/checked_tunable.go): a tuning
  * action guarded by a checker that is consulted before and after it. */
module CheckedTunable {
  import opened Common

  /** A checker: its description and the required value as text. */
  datatype Checker = Checker(desc: string, required: string)

  /** `CheckResult`: whether the system already satisfies the checker, the
    * current value (as `%v` renders it) and the error the check hit, if any. */
  datatype CheckResult = CheckResult(isOk: bool, current: string, err: Option<string>)

  /** `TuneResult`: whether the tunable changed the system, the error it
    * hit, and whether a reboot is needed. */
  datatype TuneResult = TuneResult(modified: bool, err: Option<string>, rebootRequired: bool)

  /** `NewTuneError`. */
  function TuneError(err: string): (r: TuneResult)
    ensures r.err == Some(err) && !r.modified && !r.rebootRequired
  {
    TuneResult(false, Some(err), false)
  }

  /** The error of a post-tune check that still fails; it quotes the value
    * read by the check made before tuning. */
  function NotSuccessful(c: Checker, before: CheckResult): string
  {
    "System tuning was not succesfull, check '" + c.desc + "' failed, required: '" +
      c.required + "', current '" + before.current + "'"
  }

  /** What `Tune` returns and which of the calls it made. */
  datatype TuneRun = TuneRun(result: TuneResult, actionRun: bool, checkedAgain: bool)

  /** `Tune`, with the two checker calls and the tuning action given as
    * their outcomes: an erroring check aborts, a satisfied check skips the
    * action, a failing action is reported, and an action whose re-check is
    * still not ok becomes an error. */
  function Tune(c: Checker, before: CheckResult, action: TuneResult, after: CheckResult): (r: TuneRun)
    ensures r.actionRun <==> before.err.None? && !before.isOk
    ensures r.checkedAgain <==> r.actionRun && action.err.None?
    ensures before.err.Some? ==> r.result == TuneError(before.err.value)
    ensures before.err.None? && before.isOk ==> r.result == TuneResult(false, None, false)
    ensures r.actionRun && action.err.Some? ==> r.result == TuneError(action.err.value)
    ensures r.checkedAgain && !after.isOk ==> r.result == TuneError(NotSuccessful(c, before))
    ensures r.result.err.None? <==> before.err.None? && (before.isOk || (action.err.None? && after.isOk))
    ensures r.result.modified ==> r.checkedAgain && after.isOk && r.result == action
  {
    if before.err.Some? then TuneRun(TuneError(before.err.value), false, false)
    else if before.isOk then TuneRun(TuneResult(false, None, false), false, false)
    else if action.err.Some? then TuneRun(TuneError(action.err.value), true, false)
    else if !after.isOk then TuneRun(TuneError(NotSuccessful(c, before)), true, true)
    else TuneRun(action, true, true)
  }

  /** Tuning an already tuned system is a no-op: when the first check passes
    * the action never runs and nothing is reported modified, whatever the
    * action would have done. */
  lemma TuneWhenOkIsNoOp(c: Checker, before: CheckResult, a1: TuneResult, a2: TuneResult,
                         after1: CheckResult, after2: CheckResult)
    requires before.err.None? && before.isOk
    ensures Tune(c, before, a1, after1) == Tune(c, before, a2, after2)
    ensures !Tune(c, before, a1, after1).result.modified
  {
  }
}
