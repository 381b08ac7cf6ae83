/**
 * The dashboard's sort button: it finds the current sort among three options,
 * shows that option's label, and links to the same filter with the next
 * option in the cycle newest, oldest, title.
 */
module DashboardSortButton {
  import opened Wrappers
  import opened DashboardUrl
  import PostQueries
  import DashboardPostList

  datatype SortOption = SortOption(caption: string, value: string)

  /** `sortOptions`, in cycle order; `caption` is the option's `label` (the icons are left out). */
  const SortOptions: seq<SortOption> :=
    [SortOption("Newest", "newest"), SortOption("Oldest", "oldest"), SortOption("Title", "title")]

  /** `findIndex`: the first option whose value is `v`, or -1 when there is none. */
  function FindIndex(options: seq<SortOption>, v: string): (i: int)
    ensures -1 <= i < |options|
    ensures i >= 0 ==> options[i].value == v && forall j :: 0 <= j < i ==> options[j].value != v
    ensures i == -1 <==> forall j :: 0 <= j < |options| ==> options[j].value != v
  {
    if options == [] then -1
    else if options[0].value == v then 0
    else
      var k := FindIndex(options[1..], v);
      if k == -1 then -1 else k + 1
  }

  /**
   * `(currentIndex + 1) % sortOptions.length`. The left operand is never
   * negative, so JavaScript's truncating `%` and Dafny's agree.
   */
  function NextIndex(i: int): (n: nat)
    requires -1 <= i < |SortOptions|
    ensures n == if i + 1 < |SortOptions| then i + 1 else 0
  {
    (i + 1) % |SortOptions|
  }

  /** `nextSort` for a current sort value. */
  function NextSortOf(current: string): string {
    SortOptions[NextIndex(FindIndex(SortOptions, current))].value
  }

  /** The rendered link: its target and the label it shows. */
  datatype Button = Button(href: string, caption: string)

  /**
   * `SortButton()`. When the sort parameter is not an option `findIndex`
   * gives -1 and `sortOptions[-1].label` throws: no button, None.
   */
  function Render(params: Params): (b: Option<Button>)
    ensures b.Some? <==> exists j :: 0 <= j < |SortOptions| && SortOptions[j].value == CurrentSort(params)
    ensures b.Some? ==> b.value.href == Href(CurrentFilter(params), NextSortOf(CurrentSort(params)))
  {
    var i := FindIndex(SortOptions, CurrentSort(params));
    if i == -1 then None
    else Some(Button(Href(CurrentFilter(params), NextSortOf(CurrentSort(params))), SortOptions[i].caption))
  }

  /** Where each option value sits. */
  lemma OptionIndices()
    ensures FindIndex(SortOptions, "newest") == 0
    ensures FindIndex(SortOptions, "oldest") == 1
    ensures FindIndex(SortOptions, "title") == 2
  {
    assert SortOptions[0].value == "newest" && SortOptions[1].value == "oldest" && SortOptions[2].value == "title";
  }

  /** The cycle newest, oldest, title, newest. */
  lemma SortCycle()
    ensures NextSortOf("newest") == "oldest"
    ensures NextSortOf("oldest") == "title"
    ensures NextSortOf("title") == "newest"
  {
    OptionIndices();
  }

  /** Three clicks come back to the starting sort. */
  lemma ThreeNextsReturn(v: string)
    requires v in DashboardPostList.SortOptions
    ensures NextSortOf(NextSortOf(NextSortOf(v))) == v
  {
    SortCycle();
  }

  /** An absent sort is `newest`: the button shows "Newest" and links to `oldest`. */
  lemma AbsentSortIsNewest(filter: Option<string>)
    ensures Render(Params(filter, None)) ==
      Some(Button(Href(CurrentFilter(Params(filter, None)), "oldest"), "Newest"))
  {
    SortCycle();
    OptionIndices();
  }

  /** An unknown sort would link to `newest`, but the label lookup throws, so no button renders. */
  lemma UnknownSortBreaksButton(params: Params)
    requires CurrentSort(params) !in DashboardPostList.SortOptions
    ensures NextSortOf(CurrentSort(params)) == "newest"
    ensures Render(params).None?
  {
    var v := CurrentSort(params);
    assert FindIndex(SortOptions, v) == -1 by {
      assert SortOptions[0].value == "newest" && SortOptions[1].value == "oldest" && SortOptions[2].value == "title";
    }
  }

  /** The label the button shows, by the list's sort. */
  function LabelOf(m: PostQueries.SortMode): string {
    match m
    case Newest => "Newest"
    case Oldest => "Oldest"
    case Title => "Title"
  }

  /** The next sort in the list's own terms. */
  function NextMode(m: PostQueries.SortMode): PostQueries.SortMode {
    match m
    case Newest => PostQueries.Oldest
    case Oldest => PostQueries.Title
    case Title => PostQueries.Newest
  }

  /**
   * Whenever the button renders it agrees with the list: its label names the
   * sort the list uses, and its link leads to the next sort of the cycle.
   */
  lemma ButtonAgreesWithList(params: Params)
    requires Render(params).Some?
    ensures Render(params).value.caption == LabelOf(DashboardPostList.ValidSort(params.sort))
    ensures DashboardPostList.ValidSort(Some(NextSortOf(CurrentSort(params)))) ==
      NextMode(DashboardPostList.ValidSort(params.sort))
  {
    SortCycle();
    OptionIndices();
    var v := CurrentSort(params);
    assert SortOptions[0].value == "newest" && SortOptions[1].value == "oldest" && SortOptions[2].value == "title";
    assert v == "newest" || v == "oldest" || v == "title";
    assert params.sort.None? || params.sort == Some(v);
  }
}
