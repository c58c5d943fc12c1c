/** The progress record shown while a long activity runs, and its two reducers. */
module ProgressSlice {

  /** The record as a value. */
  datatype Progress = Progress(active: bool, activity: string, status: string)

  const InitialProgress := Progress(false, "", "")

  /** `reportProgress({activity, status})` */
  function Reported(p: Progress, activity: string, status: string): (r: Progress)
    ensures r.active && r.activity == activity && r.status == status
  {
    p.(active := true, activity := activity, status := status)
  }

  /** `reportComplete(activity)`: the status text stays as it was. */
  function Completed(p: Progress, activity: string): (r: Progress)
    ensures !r.active && r.activity == activity && r.status == p.status
  {
    p.(activity := activity, active := false)
  }

  /** Reporting the statuses one after the other, for one activity. */
  function ReportedAll(p: Progress, activity: string, statuses: seq<string>): Progress {
    if statuses == [] then p else Reported(ReportedAll(p, activity, statuses[..|statuses| - 1]), activity, statuses[|statuses| - 1])
  }

  /** Both reducers overwrite every field they touch, so repeating one is the same as
      applying it once, and a later report hides an earlier one. */
  lemma LastWriterWins(p: Progress, a: string, s: string, a': string, s': string)
    ensures Reported(Reported(p, a, s), a, s) == Reported(p, a, s)
    ensures Completed(Completed(p, a), a) == Completed(p, a)
    ensures Reported(Reported(p, a, s), a', s') == Reported(p, a', s')
    ensures Completed(Reported(p, a, s), a') == Progress(false, a', s)
  {
  }

  /** A run of reports leaves only the last one visible. */
  lemma {:induction false} ReportedAllLast(p: Progress, activity: string, statuses: seq<string>)
    requires statuses != []
    ensures ReportedAll(p, activity, statuses) == Progress(true, activity, statuses[|statuses| - 1])
  {
  }

  /** The progress slice's state, updated in place by its reducers. */
  class ProgressState {
    var active: bool
    var activity: string
    var status: string

    function Value(): Progress
      reads this
    {
      Progress(active, activity, status)
    }

    constructor()
      ensures Value() == InitialProgress
    {
      active := false;
      activity := "";
      status := "";
    }

    method ReportProgress(activity: string, status: string)
      modifies this
      ensures Value() == Reported(old(Value()), activity, status)
    {
      this.active := true;
      this.activity := activity;
      this.status := status;
    }

    method ReportComplete(activity: string)
      modifies this
      ensures Value() == Completed(old(Value()), activity)
    {
      this.activity := activity;
      this.active := false;
    }
  }
}
