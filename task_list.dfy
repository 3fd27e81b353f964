// The query pipeline and view-filter state of src/components/tasks/TaskList.tsx:
// four filter predicates combined with AND, a sort by one of four orders,
// and the five view parameters with their setters, toggleCategoryFilter,
// clearFilters and hasActiveFilters.
module TaskList {
  import opened TaskTypes
  import Seqs
  import Text

  /** `TaskPriority | 'all'`. */
  datatype PriorityFilter = All | Only(priority: Priority)

  datatype SortOption = Newest | Oldest | DueDate | ByPriority

  // ------------------------------------------------------------ filtering

  /**
   * The search term, lower-cased, occurs in the lower-cased title, or in the
   * lower-cased description when there is one.
   */
  predicate MatchesSearch(t: Task, term: string)
  {
    Text.Includes(Text.Lower(t.title), Text.Lower(term))
    || (t.description.Some? && Text.Includes(Text.Lower(t.description.value), Text.Lower(term)))
  }

  /** No selection passes every task; otherwise the task's category id must be selected. */
  predicate MatchesCategory(t: Task, selected: seq<string>)
  {
    |selected| == 0 || (t.category.Some? && t.category.value.id in selected)
  }

  predicate MatchesPriority(t: Task, priority: PriorityFilter)
  {
    priority == All || priority == Only(t.priority)
  }

  predicate MatchesCompletion(t: Task, showCompleted: bool)
  {
    showCompleted || !t.completed
  }

  predicate Matches(t: Task, term: string, selected: seq<string>, priority: PriorityFilter,
                    showCompleted: bool)
  {
    && MatchesSearch(t, term)
    && MatchesCategory(t, selected)
    && MatchesPriority(t, priority)
    && MatchesCompletion(t, showCompleted)
  }

  /**
   * `filteredTasks`: the tasks passing all four predicates, each as often as
   * in `tasks` and in the same relative order.
   */
  function FilterTasks(tasks: seq<Task>, term: string, selected: seq<string>,
                       priority: PriorityFilter, showCompleted: bool): (r: seq<Task>)
    ensures Seqs.IsSubsequence(r, tasks)
    ensures forall t :: t in r <==> t in tasks && Matches(t, term, selected, priority, showCompleted)
    ensures forall t :: multiset(r)[t] ==
              if Matches(t, term, selected, priority, showCompleted) then multiset(tasks)[t] else 0
  {
    var keep := (t: Task) => Matches(t, term, selected, priority, showCompleted);
    Seqs.FilterCount(keep, tasks);
    Seqs.FilterIsSubsequence(keep, tasks);
    Seqs.Filter(keep, tasks)
  }

  /**
   * The search filter: an empty term matches every task; a non-empty one
   * matches exactly when it occurs, ignoring case, in the title or in the
   * description.
   */
  lemma SearchMeaning(t: Task, term: string)
    ensures term == "" ==> MatchesSearch(t, term)
    ensures MatchesSearch(t, term) <==>
              (exists i :: Text.OccursAt(Text.Lower(t.title), Text.Lower(term), i))
              || (t.description.Some? &&
                  exists i :: Text.OccursAt(Text.Lower(t.description.value), Text.Lower(term), i))
  {
    Text.IncludesIffOccurs(Text.Lower(t.title), Text.Lower(term));
    if t.description.Some? {
      Text.IncludesIffOccurs(Text.Lower(t.description.value), Text.Lower(term));
    }
    if term == "" {
      assert Text.Lower(term) == "";
      Text.IncludesEmpty(Text.Lower(t.title));
    }
  }

  /** Searching ignores case: a term and its lower-cased form select the same tasks. */
  lemma SearchIgnoresCase(t: Task, term: string)
    ensures MatchesSearch(t, term) == MatchesSearch(t, Text.Lower(term))
  {
    Text.LowerIdempotent(term);
  }

  // ------------------------------------------------------------ active filters

  /** `hasActiveFilters`; the sort order takes no part in it. */
  predicate ActiveFilters(term: string, selected: seq<string>, priority: PriorityFilter,
                          showCompleted: bool)
  {
    term != "" || |selected| > 0 || priority != All || !showCompleted
  }

  /** With no active filter the filtered list is the whole task list. */
  lemma InactiveFiltersKeepAll(tasks: seq<Task>, term: string, selected: seq<string>,
                               priority: PriorityFilter, showCompleted: bool)
    requires !ActiveFilters(term, selected, priority, showCompleted)
    ensures FilterTasks(tasks, term, selected, priority, showCompleted) == tasks
  {
    forall t | t in tasks
      ensures Matches(t, term, selected, priority, showCompleted)
    {
      SearchMeaning(t, term);
    }
    Seqs.FilterKeepsAll((t: Task) => Matches(t, term, selected, priority, showCompleted), tasks);
  }

  /** Conversely, each active filter rejects some task. */
  lemma ActiveFiltersRejectSome(term: string, selected: seq<string>, priority: PriorityFilter,
                                showCompleted: bool)
    requires ActiveFilters(term, selected, priority, showCompleted)
    ensures exists t :: !Matches(t, term, selected, priority, showCompleted)
  {
    var other := if priority == Only(Low) then High else Low;
    var t := Task("", "", None, !showCompleted, other, None, None, 0);
    if term != "" {
      Text.EmptyIncludesOnlyEmpty(Text.Lower(term));
      assert !MatchesSearch(t, term);
    }
    assert !Matches(t, term, selected, priority, showCompleted);
  }

  // ------------------------------------------------------------ sorting

  /** `priorityOrder`: high before medium before low. */
  function Rank(p: Priority): int
  {
    match p
    case High => 0
    case Medium => 1
    case Low => 2
  }

  /** The comparator handed to Array.prototype.sort, as written. */
  function SourceCompare(order: SortOption, a: Task, b: Task): int
  {
    match order
    case Newest => b.createdAt - a.createdAt
    case Oldest => a.createdAt - b.createdAt
    case DueDate =>
      if a.dueDate.None? then 1
      else if b.dueDate.None? then -1
      else a.dueDate.value - b.dueDate.value
    case ByPriority => Rank(a.priority) - Rank(b.priority)
  }

  /**
   * For two tasks without a due date the comparator answers 1 both ways:
   * each claims to sort after the other, so it is not a consistent comparator.
   */
  lemma SourceCompareInconsistent(a: Task, b: Task)
    requires a.dueDate.None? && b.dueDate.None?
    ensures SourceCompare(DueDate, a, b) > 0 && SourceCompare(DueDate, b, a) > 0
  {
  }

  /** The comparator with two undated tasks treated as tied. */
  function Compare(order: SortOption, a: Task, b: Task): int
  {
    if order == DueDate && a.dueDate.None? && b.dueDate.None? then 0
    else SourceCompare(order, a, b)
  }

  /** The corrected comparator agrees with the source on every other pair. */
  lemma CompareAgreesWithSource(order: SortOption, a: Task, b: Task)
    requires !(order == DueDate && a.dueDate.None? && b.dueDate.None?)
    ensures Compare(order, a, b) == SourceCompare(order, a, b)
  {
  }

  /**
   * The corrected comparator is consistent: swapping the arguments flips the
   * sign, and "sorts no later than" is transitive.
   */
  lemma CompareConsistent(order: SortOption, a: Task, b: Task, c: Task)
    ensures Compare(order, a, b) < 0 <==> Compare(order, b, a) > 0
    ensures Compare(order, a, b) == 0 <==> Compare(order, b, a) == 0
    ensures Compare(order, a, b) <= 0 && Compare(order, b, c) <= 0 ==> Compare(order, a, c) <= 0
    ensures Compare(order, a, b) == 0 && Compare(order, b, c) == 0 ==> Compare(order, a, c) == 0
    ensures Compare(order, a, b) > 0 && Compare(order, c, b) == 0 ==> Compare(order, a, c) > 0
  {
  }

  predicate Precedes(order: SortOption, a: Task, b: Task)
  {
    Compare(order, a, b) <= 0
  }

  ghost predicate Sorted(order: SortOption, s: seq<Task>)
  {
    forall i, j :: 0 <= i < j < |s| ==> Precedes(order, s[i], s[j])
  }

  /** The tasks of `s` that the comparator ties with `x`, in their order in `s`. */
  function Tied(order: SortOption, s: seq<Task>, x: Task): seq<Task>
  {
    Seqs.Filter(TiesWith(order, x), s)
  }

  function TiesWith(order: SortOption, x: Task): Task -> bool
  {
    (e: Task) => Compare(order, e, x) == 0
  }

  /** What a sorted list means for each of the four orders. */
  lemma SortedMeaning(order: SortOption, s: seq<Task>)
    requires Sorted(order, s)
    ensures order == Newest ==> forall i, j :: 0 <= i < j < |s| ==> s[i].createdAt >= s[j].createdAt
    ensures order == Oldest ==> forall i, j :: 0 <= i < j < |s| ==> s[i].createdAt <= s[j].createdAt
    ensures order == ByPriority ==> forall i, j :: 0 <= i < j < |s| ==> Rank(s[i].priority) <= Rank(s[j].priority)
    ensures order == DueDate ==> forall i, j :: 0 <= i < j < |s| && s[j].dueDate.Some? ==>
              s[i].dueDate.Some? && s[i].dueDate.value <= s[j].dueDate.value
  {
    forall i, j | 0 <= i < j < |s|
      ensures Precedes(order, s[i], s[j])
    {
    }
  }

  /**
   * Putting `x` at position `j` of a sorted list, after every element that
   * does not sort after it and before every one that does, keeps the list
   * sorted.
   */
  lemma InsertKeepsSorted(order: SortOption, r: seq<Task>, j: int, x: Task)
    requires Sorted(order, r)
    requires 0 <= j <= |r|
    requires j > 0 ==> Precedes(order, r[j - 1], x)
    requires forall k :: j <= k < |r| ==> Compare(order, r[k], x) > 0
    ensures Sorted(order, r[..j] + [x] + r[j..])
  {
    var r' := r[..j] + [x] + r[j..];
    forall a, b | 0 <= a < b < |r'|
      ensures Precedes(order, r'[a], r'[b])
    {
      if a < j && b == j {
        CompareConsistent(order, r[a], r[j - 1], x);
      } else if a == j {
        CompareConsistent(order, r[b - 1], x, x);
      } else if b < j {
        assert r'[a] == r[a] && r'[b] == r[b];
      } else if a < j {
        assert r'[a] == r[a] && r'[b] == r[b - 1];
      } else {
        assert r'[a] == r[a - 1] && r'[b] == r[b - 1];
      }
    }
  }

  /**
   * The same insertion appends `x` to the tasks it ties with and leaves the
   * ties of every other task as they were.
   */
  lemma InsertKeepsTies(order: SortOption, r: seq<Task>, j: int, x: Task, y: Task)
    requires 0 <= j <= |r|
    requires forall k :: j <= k < |r| ==> Compare(order, r[k], x) > 0
    ensures Tied(order, r[..j] + [x] + r[j..], y) == Tied(order, r, y) + Tied(order, [x], y)
  {
    var p := TiesWith(order, y);
    Seqs.FilterSplice(p, r, j, x);
    if p(x) {
      forall e | e in r[j..]
        ensures !p(e)
      {
        CompareConsistent(order, e, x, y);
      }
      Seqs.FilterNone(p, r[j..]);
    } else {
      Seqs.FilterNone(p, [x]);
    }
  }

  /**
   * One step of the insertion sort: `r` is the sorted form of `done`, and
   * inserting `x` at `j` gives the sorted form of `done + [x]`.
   */
  lemma InsertStep(order: SortOption, done: seq<Task>, r: seq<Task>, j: int, x: Task)
    requires multiset(r) == multiset(done)
    requires Sorted(order, r)
    requires forall y :: Tied(order, r, y) == Tied(order, done, y)
    requires 0 <= j <= |r|
    requires j > 0 ==> Precedes(order, r[j - 1], x)
    requires forall k :: j <= k < |r| ==> Compare(order, r[k], x) > 0
    ensures multiset(r[..j] + [x] + r[j..]) == multiset(done + [x])
    ensures Sorted(order, r[..j] + [x] + r[j..])
    ensures forall y :: Tied(order, r[..j] + [x] + r[j..], y) == Tied(order, done + [x], y)
  {
    InsertKeepsSorted(order, r, j, x);
    forall y
      ensures Tied(order, r[..j] + [x] + r[j..], y) == Tied(order, done + [x], y)
    {
      InsertKeepsTies(order, r, j, x, y);
      Seqs.FilterAppend(TiesWith(order, y), done, [x]);
      assert Tied(order, r, y) == Tied(order, done, y);
    }
    Seqs.SpliceMultiset(r, j, x);
  }

  /**
   * Where `x` goes in the sorted list `r`: after the last element that does
   * not sort after it.
   */
  method InsertionPoint(order: SortOption, r: seq<Task>, x: Task) returns (j: int)
    requires Sorted(order, r)
    ensures 0 <= j <= |r|
    ensures j > 0 ==> Precedes(order, r[j - 1], x)
    ensures forall k :: j <= k < |r| ==> Compare(order, r[k], x) > 0
  {
    j := |r|;
    while j > 0 && Compare(order, r[j - 1], x) > 0
      invariant 0 <= j <= |r|
      invariant forall k :: j <= k < |r| ==> Compare(order, r[k], x) > 0
    {
      j := j - 1;
    }
  }

  /**
   * `sortedTasks`: a stable insertion sort. The result is a permutation of
   * the input, ordered by the comparator, and tasks the comparator ties keep
   * their relative order.
   */
  method SortTasks(order: SortOption, tasks: seq<Task>) returns (r: seq<Task>)
    ensures multiset(r) == multiset(tasks)
    ensures Sorted(order, r)
    ensures forall x :: Tied(order, r, x) == Tied(order, tasks, x)
  {
    r := [];
    var i := 0;
    while i < |tasks|
      invariant 0 <= i <= |tasks|
      invariant multiset(r) == multiset(tasks[..i])
      invariant Sorted(order, r)
      invariant forall x :: Tied(order, r, x) == Tied(order, tasks[..i], x)
    {
      var j := InsertionPoint(order, r, tasks[i]);
      InsertStep(order, tasks[..i], r, j, tasks[i]);
      assert tasks[..i + 1] == tasks[..i] + [tasks[i]];
      r := r[..j] + [tasks[i]] + r[j..];
      i := i + 1;
    }
    assert tasks[..i] == tasks;
  }

  /** Unfolding `Tied` by one element. */
  lemma TiedCons(order: SortOption, s: seq<Task>, y: Task)
    requires s != []
    ensures Tied(order, s, y) == (if Compare(order, s[0], y) == 0 then [s[0]] else []) + Tied(order, s[1..], y)
  {
  }

  /** Every task ties with itself under each of the four orders. */
  lemma TiesWithItself(order: SortOption, x: Task)
    ensures Compare(order, x, x) == 0
  {
    CompareConsistent(order, x, x, x);
  }

  /** Two sorted lists with the same elements and the same ties start alike. */
  lemma SameHead(order: SortOption, a: seq<Task>, b: seq<Task>)
    requires a != [] && b != []
    requires multiset(a) == multiset(b)
    requires Sorted(order, a) && Sorted(order, b)
    requires Tied(order, a, a[0]) == Tied(order, b, a[0])
    ensures a[0] == b[0]
  {
    var x, y := a[0], b[0];
    assert y in multiset(a) && x in multiset(b);
    var i :| 0 <= i < |a| && a[i] == y;
    var k :| 0 <= k < |b| && b[k] == x;
    TiesWithItself(order, x);
    TiesWithItself(order, y);
    assert Precedes(order, x, y) && Precedes(order, y, x);
    CompareConsistent(order, x, y, x);
    TiedCons(order, a, x);
    TiedCons(order, b, x);
    assert Tied(order, a, x)[0] == x && Tied(order, b, x)[0] == y;
  }

  /** Dropping the same first element from two lists with equal elements. */
  lemma SameTailElements(a: seq<Task>, b: seq<Task>)
    requires a != [] && b != [] && a[0] == b[0]
    requires multiset(a) == multiset(b)
    ensures multiset(a[1..]) == multiset(b[1..])
  {
    assert a == [a[0]] + a[1..] && b == [b[0]] + b[1..];
    assert multiset(a[1..]) == multiset(a) - multiset{a[0]};
    assert multiset(b[1..]) == multiset(b) - multiset{b[0]};
  }

  /** Dropping the same first element keeps the ties equal. */
  lemma SameTailTies(order: SortOption, a: seq<Task>, b: seq<Task>)
    requires a != [] && b != [] && a[0] == b[0]
    requires forall x :: Tied(order, a, x) == Tied(order, b, x)
    ensures forall z :: Tied(order, a[1..], z) == Tied(order, b[1..], z)
  {
    forall z
      ensures Tied(order, a[1..], z) == Tied(order, b[1..], z)
    {
      TiedCons(order, a, z);
      TiedCons(order, b, z);
      var h := if Compare(order, a[0], z) == 0 then [a[0]] else [];
      assert Tied(order, a[1..], z) == Tied(order, a, z)[|h|..];
      assert Tied(order, b[1..], z) == Tied(order, b, z)[|h|..];
    }
  }

  /**
   * A sorted list is determined by its elements and the order of its ties:
   * any two lists with the same multiset, both sorted and with the same
   * tied subsequences, are equal. So every stable sort under the corrected
   * comparator yields the same list.
   */
  lemma {:induction false} SortUnique(order: SortOption, a: seq<Task>, b: seq<Task>)
    requires multiset(a) == multiset(b)
    requires Sorted(order, a) && Sorted(order, b)
    requires forall x :: Tied(order, a, x) == Tied(order, b, x)
    ensures a == b
    decreases |a|
  {
    assert |b| == |multiset(b)| == |multiset(a)| == |a|;
    if a != [] {
      SameHead(order, a, b);
      SameTailElements(a, b);
      SameTailTies(order, a, b);
      assert Sorted(order, a[1..]) && Sorted(order, b[1..]);
      SortUnique(order, a[1..], b[1..]);
      assert a == [a[0]] + a[1..] && b == [b[0]] + b[1..];
    }
  }

  /**
   * `r` is the displayed list for these parameters: it holds exactly the
   * tasks that pass every filter, each as often as in `tasks`, sorted by the
   * comparator, with tied tasks in their filtered order.
   */
  ghost predicate Displays(tasks: seq<Task>, term: string, selected: seq<string>, priority: PriorityFilter,
                           order: SortOption, showCompleted: bool, r: seq<Task>)
  {
    && (forall t :: multiset(r)[t] ==
          if Matches(t, term, selected, priority, showCompleted) then multiset(tasks)[t] else 0)
    && Sorted(order, r)
    && (forall x :: Tied(order, r, x) == Tied(order, FilterTasks(tasks, term, selected, priority, showCompleted), x))
  }

  /** The displayed list: the filtered tasks, sorted. */
  method Query(tasks: seq<Task>, term: string, selected: seq<string>, priority: PriorityFilter,
               order: SortOption, showCompleted: bool) returns (r: seq<Task>)
    ensures Displays(tasks, term, selected, priority, order, showCompleted, r)
  {
    r := SortTasks(order, FilterTasks(tasks, term, selected, priority, showCompleted));
  }

  /**
   * The query is idempotent: for the same tasks and parameters there is only
   * one displayed list, so asking twice shows the same tasks in the same order.
   */
  lemma QueryIdempotent(tasks: seq<Task>, term: string, selected: seq<string>, priority: PriorityFilter,
                        order: SortOption, showCompleted: bool, r1: seq<Task>, r2: seq<Task>)
    requires Displays(tasks, term, selected, priority, order, showCompleted, r1)
    requires Displays(tasks, term, selected, priority, order, showCompleted, r2)
    ensures r1 == r2
  {
    assert forall t :: multiset(r1)[t] == multiset(r2)[t];
    assert multiset(r1) == multiset(r2);
    SortUnique(order, r1, r2);
  }

  // ------------------------------------------------------------ category selection

  /**
   * `toggleCategoryFilter`: remove every copy of `id` when it is selected,
   * append it otherwise.
   */
  function ToggledSelection(selected: seq<string>, id: string): (r: seq<string>)
    ensures id in r <==> id !in selected
    ensures forall x :: x != id ==> multiset(r)[x] == multiset(selected)[x]
  {
    var other := (x: string) => x != id;
    Seqs.FilterCount(other, selected);
    if id in selected then Seqs.Filter(other, selected) else selected + [id]
  }

  /** The other selected ids keep their order. */
  lemma ToggleKeepsOthersInOrder(selected: seq<string>, id: string)
    ensures Seqs.Filter((x: string) => x != id, ToggledSelection(selected, id))
         == Seqs.Filter((x: string) => x != id, selected)
  {
    var p := (x: string) => x != id;
    if id !in selected {
      Seqs.FilterAppend(p, selected, [id]);
      assert Seqs.Filter(p, [id]) == [];
    } else {
      Seqs.FilterCount(p, selected);
      Seqs.FilterKeepsAll(p, Seqs.Filter(p, selected));
    }
  }

  /** Toggling an unselected id twice restores the selection. */
  lemma ToggleTwiceRestores(selected: seq<string>, id: string)
    requires id !in selected
    ensures ToggledSelection(ToggledSelection(selected, id), id) == selected
  {
    var p := (x: string) => x != id;
    Seqs.FilterAppend(p, selected, [id]);
    Seqs.FilterKeepsAll(p, selected);
    assert Seqs.Filter(p, [id]) == [];
  }

  // ------------------------------------------------------------ view state

  /** The five view parameters of the task list. */
  class ViewState {
    var searchTerm: string
    var selectedCategories: seq<string>
    var selectedPriority: PriorityFilter
    var sortBy: SortOption
    var showCompleted: bool

    /** Every parameter at its initial value. */
    predicate IsCleared()
      reads this
    {
      searchTerm == "" && selectedCategories == [] && selectedPriority == All
      && sortBy == Newest && showCompleted
    }

    function HasActiveFilters(): bool
      reads this
    {
      ActiveFilters(searchTerm, selectedCategories, selectedPriority, showCompleted)
    }

    constructor ()
      ensures IsCleared() && !HasActiveFilters()
    {
      searchTerm, selectedCategories, selectedPriority := "", [], All;
      sortBy, showCompleted := Newest, true;
    }

    method SetSearchTerm(term: string)
      modifies this
      ensures searchTerm == term
      ensures selectedCategories == old(selectedCategories) && selectedPriority == old(selectedPriority)
      ensures sortBy == old(sortBy) && showCompleted == old(showCompleted)
    {
      searchTerm := term;
    }

    method SetSelectedPriority(priority: PriorityFilter)
      modifies this
      ensures selectedPriority == priority
      ensures searchTerm == old(searchTerm) && selectedCategories == old(selectedCategories)
      ensures sortBy == old(sortBy) && showCompleted == old(showCompleted)
    {
      selectedPriority := priority;
    }

    /** Changing only the sort order never changes hasActiveFilters. */
    method SetSortBy(order: SortOption)
      modifies this
      ensures sortBy == order
      ensures searchTerm == old(searchTerm) && selectedCategories == old(selectedCategories)
      ensures selectedPriority == old(selectedPriority) && showCompleted == old(showCompleted)
      ensures HasActiveFilters() == old(HasActiveFilters())
    {
      sortBy := order;
    }

    method SetShowCompleted(show: bool)
      modifies this
      ensures showCompleted == show
      ensures searchTerm == old(searchTerm) && selectedCategories == old(selectedCategories)
      ensures selectedPriority == old(selectedPriority) && sortBy == old(sortBy)
    {
      showCompleted := show;
    }

    method ToggleCategoryFilter(id: string)
      modifies this
      ensures selectedCategories == ToggledSelection(old(selectedCategories), id)
      ensures searchTerm == old(searchTerm) && selectedPriority == old(selectedPriority)
      ensures sortBy == old(sortBy) && showCompleted == old(showCompleted)
    {
      selectedCategories := ToggledSelection(selectedCategories, id);
    }

    /** clearFilters: back to the initial values, so no filter is active. */
    method ClearFilters()
      modifies this
      ensures IsCleared() && !HasActiveFilters()
    {
      searchTerm := "";
      selectedCategories := [];
      selectedPriority := All;
      sortBy := Newest;
      showCompleted := true;
    }

    /** `sortedTasks` for the current parameters. */
    method SortedTasks(tasks: seq<Task>) returns (r: seq<Task>)
      ensures Displays(tasks, searchTerm, selectedCategories, selectedPriority, sortBy, showCompleted, r)
      ensures !HasActiveFilters() ==> multiset(r) == multiset(tasks)
    {
      r := Query(tasks, searchTerm, selectedCategories, selectedPriority, sortBy, showCompleted);
      if !HasActiveFilters() {
        InactiveFiltersKeepAll(tasks, searchTerm, selectedCategories, selectedPriority, showCompleted);
        assert forall t :: multiset(r)[t] == multiset(tasks)[t];
      }
    }
  }
}
