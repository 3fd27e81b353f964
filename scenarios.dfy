// What the task list shows for the built-in seed under a priority filter.
module Scenarios {
  import opened TaskTypes
  import TaskStore
  import opened TaskList
  import Seqs

  /** Only the one high-priority seed task passes a `high` priority filter. */
  lemma SeedHighPriority(now: int)
    ensures FilterTasks(TaskStore.DefaultTasks(now), "", [], Only(High), true)
         == [TaskStore.DefaultTasks(now)[0]]
  {
    var ts := TaskStore.DefaultTasks(now);
    var keep := (t: Task) => Matches(t, "", [], Only(High), true);
    forall t | t in ts
      ensures MatchesSearch(t, "")
    {
      SearchMeaning(t, "");
    }
    assert ts == [ts[0]] + [ts[1], ts[2], ts[3]];
    Seqs.FilterAppend(keep, [ts[0]], [ts[1], ts[2], ts[3]]);
    Seqs.FilterKeepsAll(keep, [ts[0]]);
    Seqs.FilterNone(keep, [ts[1], ts[2], ts[3]]);
  }

  /** Sorted newest first, the `high` view of the seed is that one task. */
  method SeedHighPriorityView(now: int) returns (r: seq<Task>)
    ensures r == [TaskStore.DefaultTasks(now)[0]]
  {
    r := Query(TaskStore.DefaultTasks(now), "", [], Only(High), Newest, true);
    SeedHighPriority(now);
    var t := TaskStore.DefaultTasks(now)[0];
    assert multiset(r) == multiset{t};
    assert |r| == 1 && r[0] in multiset(r);
  }
}
