/**
 * The page's session: the form, the current search result and the current
 * page, with the three user actions (search, reset, turn the page) and what
 * `displayResults` hands to the table after each.
 */
module Controller {
  import opened Records
  import opened Seqs
  import opened FilterEngine
  import opened Paginator
  import opened RowProjector

  /** The form's controls, `filteredData` and `currentPage`. */
  datatype State = State(form: FormInput, view: seq<Record>, page: int)

  /** The page is 1, or a page that exists. */
  predicate Valid(s: State) {
    1 <= s.page && (s.page == 1 || s.page <= TotalPages(|s.view|))
  }

  /** After loading: a blank form, every record, page 1. */
  function Start(all: seq<Record>): (s: State)
    ensures Valid(s)
    ensures s.view == all && s.page == 1
  {
    State(EmptyForm, all, 1)
  }

  /** The user changes the controls; nothing else moves until an action runs. */
  function Edit(s: State, f: FormInput): (t: State)
    ensures t.form == f
    ensures Valid(t) <==> Valid(s)
    ensures Render(t) == Render(s)
  {
    s.(form := f)
  }

  /**
   * `performSearch`: the result becomes the records that pass the form's
   * criteria, in dataset order, and the page goes back to 1.
   */
  function PerformSearch(all: seq<Record>, s: State): (t: State)
    ensures Valid(t) && t.page == 1 && t.form == s.form
    ensures IsSubsequence(t.view, all)
    ensures forall x :: x in t.view <==> x in all && Matches(x, Normalize(s.form))
    ensures forall x :: multiset(t.view)[x] == if Matches(x, Normalize(s.form)) then multiset(all)[x] else 0
  {
    SearchSpec(all, Normalize(s.form));
    State(s.form, Search(all, Normalize(s.form)), 1)
  }

  /** `resetSearch`: a blank form, a copy of every record, page 1. */
  function ResetSearch(all: seq<Record>, s: State): (t: State)
    ensures Valid(t) && t.page == 1
    ensures t.view == all && t.form == EmptyForm
  {
    State(EmptyForm, all, 1)
  }

  /** `changePage(delta)`: moves only to a page that exists; otherwise nothing changes. */
  function ChangePage(s: State, delta: int): (t: State)
    ensures Valid(s) ==> Valid(t)
    ensures t.view == s.view && t.form == s.form
    ensures 1 <= s.page + delta <= TotalPages(|s.view|) ==> t.page == s.page + delta
    ensures t != s ==> 1 <= t.page <= TotalPages(|t.view|) && t.page == s.page + delta
  {
    var newPage := s.page + delta;
    if 1 <= newPage <= TotalPages(|s.view|) then s.(page := newPage) else s
  }

  /** What the table and its controls receive from `displayResults`. */
  datatype Screen = Screen(
    totalItems: nat,
    page: int,
    totalPages: nat,
    prevDisabled: bool,
    nextDisabled: bool,
    rows: seq<Row>)

  /**
   * `displayResults`: the record count, the page numbers, the button states
   * and, through `currentItems.forEach`, one row per record of the current
   * page, in order.
   */
  function Render(s: State): (sc: Screen)
    ensures sc.totalItems == |s.view| && sc.page == s.page && sc.totalPages == TotalPages(|s.view|)
    ensures |sc.rows| <= PageSize
    ensures Valid(s) ==> |sc.rows| == |PageItems(s.view, s.page)|
    ensures Valid(s) ==> forall i :: 0 <= i < |sc.rows| ==>
      PageStart(s.page) + i < |s.view| && sc.rows[i] == Project(s.view[PageStart(s.page) + i])
    ensures Valid(s) && |s.view| > 0 ==> 0 < |sc.rows|
    ensures Valid(s) && |s.view| == 0 ==> sc.prevDisabled && sc.nextDisabled && sc.rows == []
  {
    var totalPages := TotalPages(|s.view|);
    var items := PageItems(s.view, s.page);
    var rows := seq(|items|, i requires 0 <= i < |items| => Project(items[i]));
    assert Valid(s) ==> forall i :: 0 <= i < |rows| ==>
      PageStart(s.page) + i < |s.view| && rows[i] == Project(s.view[PageStart(s.page) + i]) by {
      if Valid(s) {
        forall i | 0 <= i < |rows|
          ensures PageStart(s.page) + i < |s.view| && rows[i] == Project(s.view[PageStart(s.page) + i])
        {
          assert items[i] == s.view[PageStart(s.page) + i];
        }
      }
    }
    Screen(|s.view|, s.page, totalPages, s.page <= 1, s.page >= totalPages, rows)
  }

  /** A button is enabled exactly when pressing it turns the page. */
  lemma ButtonsMatchNavigation(s: State)
    requires Valid(s)
    ensures !Render(s).prevDisabled <==> ChangePage(s, -1) != s
    ensures !Render(s).nextDisabled <==> ChangePage(s, 1) != s
  {
  }

  /** Turning the page and back returns to the same state. */
  lemma ChangePageUndo(s: State, delta: int)
    requires Valid(s)
    requires ChangePage(s, delta) != s
    ensures ChangePage(ChangePage(s, delta), -delta) == s
  {
  }

  /** Reset is a search with a blank form. */
  lemma ResetIsBlankSearch(all: seq<Record>, s: State)
    ensures PerformSearch(all, ResetSearch(all, s)) == ResetSearch(all, s)
  {
    assert Normalize(EmptyForm) == NoCriteria;
    SearchNoCriteria(all);
  }

  /** A user action. */
  datatype Action = Type(f: FormInput) | SearchClicked | ResetClicked | Prev | Next

  /** The state after one action; `Prev` and `Next` are `changePage(-1)` and `changePage(1)`. */
  function Step(all: seq<Record>, s: State, a: Action): (t: State)
    ensures Valid(s) ==> Valid(t)
    ensures IsSubsequence(s.view, all) ==> IsSubsequence(t.view, all)
    ensures a.Type? || a.Prev? || a.Next? ==> t.view == s.view
    ensures a.SearchClicked? || a.ResetClicked? ==> t.page == 1
  {
    SubsequenceReflexive(all);
    match a
    case Type(f) => Edit(s, f)
    case SearchClicked => PerformSearch(all, s)
    case ResetClicked => ResetSearch(all, s)
    case Prev => ChangePage(s, -1)
    case Next => ChangePage(s, 1)
  }

  /**
   * The state after a sequence of actions. Only a search or a reset replaces
   * the result; typing and turning pages leave it as it was.
   */
  function Run(all: seq<Record>, s: State, actions: seq<Action>): (t: State)
    ensures Valid(s) ==> Valid(t)
    ensures (forall k :: 0 <= k < |actions| ==> !actions[k].SearchClicked? && !actions[k].ResetClicked?) ==> t.view == s.view
    decreases |actions|
  {
    if |actions| == 0 then s else Run(all, Step(all, s, actions[0]), actions[1..])
  }

  /**
   * Whatever the user does after loading, the page is 1 or a page that
   * exists, and the result is drawn in order from the dataset.
   */
  lemma {:induction false} RunKeepsValid(all: seq<Record>, s: State, actions: seq<Action>)
    requires Valid(s) && IsSubsequence(s.view, all)
    ensures Valid(Run(all, s, actions))
    ensures IsSubsequence(Run(all, s, actions).view, all)
    decreases |actions|
  {
    if |actions| > 0 {
      RunKeepsValid(all, Step(all, s, actions[0]), actions[1..]);
    }
  }

  /** Everything reachable from the loaded page keeps the invariants. */
  lemma Reachable(all: seq<Record>, actions: seq<Action>)
    ensures Valid(Run(all, Start(all), actions))
    ensures IsSubsequence(Run(all, Start(all), actions).view, all)
  {
    SubsequenceReflexive(all);
    RunKeepsValid(all, Start(all), actions);
  }
}
