/** Progress reporting for a render: a cumulative count of completed units out of a total. */
module Progress {
  import JavaNum

  /** What each increment reports; the timestamp it also carries is left out. */
  datatype ProgressSnapshot = ProgressSnapshot(progress: real, completedUnits: int, totalUnits: int)

  /** The ratio reported: completed over total, capped at 1. */
  function Ratio(completed: int, total: int): (r: real)
    requires total >= 1
    ensures r <= 1.0
    ensures completed >= 0 ==> r >= 0.0
    ensures completed >= total ==> r == 1.0
    ensures 0 <= completed <= total ==> r * total as real == completed as real
  {
    var q := completed as real / total as real;
    QuotientAtLeastOne(completed, total);
    JavaNum.AtMostOne(q)
  }

  lemma QuotientAtLeastOne(completed: int, total: int)
    requires total >= 1
    ensures completed >= total ==> completed as real / total as real >= 1.0
  {
    if completed >= total {
      var q := completed as real / total as real;
      assert q * total as real == completed as real;
      if q < 1.0 {
        assert q * total as real < 1.0 * total as real;
      }
    }
  }

  class ProgressReporter {
    var completed: int
    var total: int

    /** The reporter starts at 0 of 1. */
    constructor ()
      ensures completed == 0 && total == 1
    {
      completed := 0;
      total := 1;
    }

    ghost predicate Valid()
      reads this
    {
      total >= 1
    }

    /** `setTotal`: at least 1. */
    method SetTotal(total: int)
      modifies this
      ensures this.total == JavaNum.Max(1, total) && completed == old(completed)
      ensures Valid()
    {
      this.total := if total < 1 then 1 else total;
    }

    /** `increment`: the units are added and a snapshot of the new state is returned to the listener. */
    method Increment(value: int) returns (snapshot: ProgressSnapshot)
      requires Valid()
      modifies this
      ensures completed == old(completed) + value && total == old(total) && Valid()
      ensures snapshot == ProgressSnapshot(Ratio(completed, total), completed, total)
    {
      completed := completed + value;
      snapshot := ProgressSnapshot(JavaNum.AtMostOne(completed as real / total as real), completed, total);
    }
  }
}
