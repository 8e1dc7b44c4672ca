/** Sums over the tasks of a system. */
module Tallies {
  import opened Interleaving

  function Sum(f: Task -> nat, tasks: seq<Task>): nat {
    if tasks == [] then 0 else Sum(f, tasks[..|tasks| - 1]) + f(tasks[|tasks| - 1])
  }

  lemma {:induction false} SumUpdate(f: Task -> nat, tasks: seq<Task>, i: nat, t: Task)
    requires i < |tasks|
    ensures Sum(f, tasks[i := t]) + f(tasks[i]) == Sum(f, tasks) + f(t)
  {
    var n := |tasks| - 1;
    if i < n {
      SumUpdate(f, tasks[..n], i, t);
      assert tasks[i := t][..n] == tasks[..n][i := t];
    } else {
      assert tasks[i := t][..n] == tasks[..n];
    }
  }

  lemma SumAppend(f: Task -> nat, tasks: seq<Task>, t: Task)
    ensures Sum(f, tasks + [t]) == Sum(f, tasks) + f(t)
  {
    assert (tasks + [t])[..|tasks|] == tasks;
  }
}
