/**
 * The dashboard as a state machine over its two URL parameters: a tab change
 * sets `filter`, a click on the sort button advances `sort`, and each keeps
 * the other parameter as the next page reads it back: without tabs and
 * newlines, and for the sort, which ends the link, without trailing controls
 * and spaces.
 */
module DashboardNavigation {
  import opened Wrappers
  import opened DashboardUrl
  import PostQueries
  import DashboardPostList
  import DashboardSortButton
  import DashboardPostTabs

  /** The parameters after choosing the tab `value`; None when the pushed link does not read back. */
  function AfterTab(params: Params, value: string): Option<Params> {
    ParseHref(DashboardPostTabs.ChangeTabHref(params, value))
  }

  /** The parameters after following the sort button's link; None when there is no button or the link does not read back. */
  function AfterSortClick(params: Params): Option<Params> {
    match DashboardSortButton.Render(params)
    case None => None
    case Some(b) => ParseHref(b.href)
  }

  /** The sort values the button links to have nothing to encode and read back as themselves. */
  lemma SortValuesArePlain(v: string)
    requires v in DashboardPostList.SortOptions
    ensures PlainValue(v)
    ensures ReadSort(v) == v
  {
    assert forall i :: 0 <= i < |v| ==> 'a' <= v[i] <= 'z';
    assert TrimEnd(v) == v;
  }

  /** A tab change sets the filter to the chosen value, unvalidated, and keeps the current sort, both as read back. */
  lemma TabChangeKeepsSort(params: Params, value: string)
    requires PlainValue(value) && PlainValue(CurrentSort(params))
    ensures AfterTab(params, value) == Some(Params(Some(ReadFilter(value)), Some(ReadSort(CurrentSort(params)))))
  {
    ParseHrefRoundTrip(value, CurrentSort(params));
  }

  /** A sort that ends in a space loses the space on a tab change. */
  lemma TabChangeDropsSortSpace(filter: Option<string>, sort: string, value: string)
    requires PlainValue(value) && PlainValue(sort)
    requires sort != [] && !ControlOrSpace(sort[|sort| - 1])
    requires forall i :: 0 <= i < |sort| ==> !TabOrNewline(sort[i])
    ensures AfterTab(Params(filter, Some(sort + " ")), value) == Some(Params(Some(ReadFilter(value)), Some(sort)))
  {
    assert forall i :: 0 <= i < |sort + " "| ==> (sort + " ")[i] == if i < |sort| then sort[i] else ' ';
    TabChangeKeepsSort(Params(filter, Some(sort + " ")), value);
    ReadSortDropsSpace(sort);
  }

  /** The sort `oldest ` shows the newest posts first; after a tab change it is `oldest`, and the list shows the oldest first. */
  lemma TabChangeTrimsSort(filter: Option<string>)
    ensures DashboardPostList.ValidSort(Some("oldest ")) == PostQueries.Newest
    ensures AfterTab(Params(filter, Some("oldest ")), "all") == Some(Params(Some("all"), Some("oldest")))
    ensures DashboardPostList.ValidSort(Some("oldest")) == PostQueries.Oldest
  {
    OldestSpaceTabChange(filter);
    OldestSortModes();
  }

  lemma OldestSortModes()
    ensures DashboardPostList.ValidSort(Some("oldest ")) == PostQueries.Newest
    ensures DashboardPostList.ValidSort(Some("oldest")) == PostQueries.Oldest
  {
  }

  lemma OldestSpaceTabChange(filter: Option<string>)
    ensures AfterTab(Params(filter, Some("oldest ")), "all") == Some(Params(Some("all"), Some("oldest")))
  {
    assert "oldest " == "oldest" + " ";
    LowerWordIsClean("all");
    LowerWordIsClean("oldest");
    TabChangeDropsSortSpace(filter, "oldest", "all");
  }

  /** A word of small letters is not changed by reading it back. */
  lemma LowerWordIsClean(v: string)
    requires forall i :: 0 <= i < |v| ==> 'a' <= v[i] <= 'z'
    ensures ReadFilter(v) == v && PlainValue(v)
    ensures forall i :: 0 <= i < |v| ==> !TabOrNewline(v[i])
  {
  }

  /** A trailing space is dropped from a sort with no tab or newline that ends in a visible character. */
  lemma ReadSortDropsSpace(v: string)
    requires v != [] && !ControlOrSpace(v[|v| - 1])
    requires forall i :: 0 <= i < |v| ==> !TabOrNewline(v[i])
    ensures ReadSort(v + " ") == v
  {
    assert (v + " ")[..|v|] == v;
    assert TrimEnd(v + " ") == v;
  }

  /** A trailing tab is dropped from a filter with no other tab or newline. */
  lemma ReadFilterDropsTab(v: string)
    requires forall i :: 0 <= i < |v| ==> !TabOrNewline(v[i])
    ensures ReadFilter(v + "\t") == v
  {
    RemoveTabsAndNewlinesJoin(v, "\t");
    assert RemoveTabsAndNewlines("\t") == [];
  }

  /** A tab value outside the enum still reaches the URL: no tab is then active, and the list falls back to all posts. */
  lemma UnknownTabValue(params: Params, value: string)
    requires PlainValue(value) && PlainValue(CurrentSort(params))
    requires value !in DashboardPostList.FilterOptions
    ensures AfterTab(params, value).Some?
    ensures DashboardPostTabs.ActiveTab(AfterTab(params, value).value) == ReadFilter(value)
    ensures DashboardPostList.ValidFilter(AfterTab(params, value).value.filter) ==
      DashboardPostList.ValidFilter(Some(ReadFilter(value)))
    ensures ReadFilter(value) !in DashboardPostList.FilterOptions ==>
      DashboardPostList.ValidFilter(AfterTab(params, value).value.filter) == PostQueries.All
  {
    TabChangeKeepsSort(params, value);
    if ReadFilter(value) !in DashboardPostList.FilterOptions {
      DashboardPostList.UnknownFilterIsAll(Some(ReadFilter(value)));
    }
  }

  /** A click on the sort button keeps the filter (`all` when absent) as read back, and sets the next sort. */
  lemma SortClickKeepsFilter(params: Params)
    requires DashboardSortButton.Render(params).Some? && PlainValue(CurrentFilter(params))
    ensures AfterSortClick(params) ==
      Some(Params(Some(ReadFilter(CurrentFilter(params))), Some(DashboardSortButton.NextSortOf(CurrentSort(params)))))
  {
    var next := DashboardSortButton.NextSortOf(CurrentSort(params));
    DashboardSortButton.OptionIndices();
    assert next in DashboardPostList.SortOptions;
    SortValuesArePlain(next);
    ParseHrefRoundTrip(CurrentFilter(params), next);
  }

  /**
   * A click lands on a state whose button renders again and whose list uses
   * the next sort, filtered by the filter as read back.
   */
  lemma SortClickAdvancesList(params: Params)
    requires DashboardSortButton.Render(params).Some? && PlainValue(CurrentFilter(params))
    ensures AfterSortClick(params).Some?
    ensures DashboardSortButton.Render(AfterSortClick(params).value).Some?
    ensures DashboardPostList.ValidSort(AfterSortClick(params).value.sort) ==
      DashboardSortButton.NextMode(DashboardPostList.ValidSort(params.sort))
    ensures DashboardPostList.ValidFilter(AfterSortClick(params).value.filter) ==
      DashboardPostList.ValidFilter(Some(ReadFilter(CurrentFilter(params))))
  {
    SortClickKeepsFilter(params);
    DashboardSortButton.ButtonAgreesWithList(params);
    DashboardSortButton.OptionIndices();
    var next := DashboardSortButton.NextSortOf(CurrentSort(params));
    assert next in DashboardPostList.SortOptions;
    assert DashboardSortButton.SortOptions[0].value == "newest";
    assert DashboardSortButton.SortOptions[1].value == "oldest";
    assert DashboardSortButton.SortOptions[2].value == "title";
  }

  /** A filter with no tab or newline survives a click, so the list keeps its filter. */
  lemma SortClickKeepsCleanFilter(params: Params)
    requires DashboardSortButton.Render(params).Some? && PlainValue(CurrentFilter(params))
    requires forall i :: 0 <= i < |CurrentFilter(params)| ==> !TabOrNewline(CurrentFilter(params)[i])
    ensures AfterSortClick(params).Some?
    ensures DashboardPostList.ValidFilter(AfterSortClick(params).value.filter) == DashboardPostList.ValidFilter(params.filter)
  {
    SortClickKeepsFilter(params);
    ReadFilterKeepsClean(CurrentFilter(params));
  }

  /** A filter that ends in a tab loses the tab on a sort click. */
  lemma SortClickDropsFilterTab(filter: string)
    requires PlainValue(filter) && forall i :: 0 <= i < |filter| ==> !TabOrNewline(filter[i])
    ensures AfterSortClick(Params(Some(filter + "\t"), Some("newest"))) == Some(Params(Some(filter), Some("oldest")))
  {
    var params := Params(Some(filter + "\t"), Some("newest"));
    DashboardSortButton.OptionIndices();
    assert forall i :: 0 <= i < |filter + "\t"| ==> (filter + "\t")[i] == if i < |filter| then filter[i] else '\t';
    SortClickKeepsFilter(params);
    DashboardSortButton.SortCycle();
    ReadFilterDropsTab(filter);
  }

  /** The filter `drafts` followed by a tab shows all posts, and after one sort click only the drafts. */
  lemma TabbedFilterChangesList()
    ensures DashboardPostList.ValidFilter(Some("drafts\t")) == PostQueries.All
    ensures AfterSortClick(Params(Some("drafts\t"), Some("newest"))) == Some(Params(Some("drafts"), Some("oldest")))
    ensures DashboardPostList.ValidFilter(Some("drafts")) == PostQueries.Drafts
  {
    DraftsTabClick();
    DraftsFilterModes();
  }

  lemma DraftsFilterModes()
    ensures DashboardPostList.ValidFilter(Some("drafts\t")) == PostQueries.All
    ensures DashboardPostList.ValidFilter(Some("drafts")) == PostQueries.Drafts
  {
  }

  lemma DraftsTabClick()
    ensures AfterSortClick(Params(Some("drafts\t"), Some("newest"))) == Some(Params(Some("drafts"), Some("oldest")))
  {
    assert "drafts\t" == "drafts" + "\t";
    LowerWordIsClean("drafts");
    SortClickDropsFilterTab("drafts");
  }

  /** Three clicks return to the starting sort, with the filter made explicit and read back. */
  lemma ThreeClicksReturn(params: Params)
    requires DashboardSortButton.Render(params).Some? && PlainValue(CurrentFilter(params))
    ensures AfterSortClick(params).Some?
    ensures AfterSortClick(AfterSortClick(params).value).Some?
    ensures AfterSortClick(AfterSortClick(AfterSortClick(params).value).value) ==
      Some(Params(Some(ReadFilter(CurrentFilter(params))), Some(CurrentSort(params))))
  {
    var f, v := CurrentFilter(params), CurrentSort(params);
    var r := ReadFilter(f);
    ReadKeepsPlain(f);
    ReadFilterIdempotent(f);
    SortClickAdvancesList(params);
    SortClickKeepsFilter(params);
    var p1 := AfterSortClick(params).value;
    assert p1 == Params(Some(r), Some(DashboardSortButton.NextSortOf(v)));
    SortClickAdvancesList(p1);
    SortClickKeepsFilter(p1);
    var p2 := AfterSortClick(p1).value;
    assert p2 == Params(Some(r), Some(DashboardSortButton.NextSortOf(DashboardSortButton.NextSortOf(v))));
    SortClickKeepsFilter(p2);
    DashboardSortButton.OptionIndices();
    DashboardSortButton.ThreeNextsReturn(v);
  }

  /** Changing tab and sorting commute: either order ends on the chosen filter and the next sort. */
  lemma TabAndSortCommute(params: Params, value: string)
    requires DashboardSortButton.Render(params).Some?
    requires PlainValue(CurrentFilter(params)) && PlainValue(value)
    ensures AfterTab(params, value).Some? && AfterSortClick(params).Some?
    ensures AfterSortClick(AfterTab(params, value).value) ==
      AfterTab(AfterSortClick(params).value, value)
  {
    DashboardSortButton.OptionIndices();
    var v := CurrentSort(params);
    assert v in DashboardPostList.SortOptions;
    SortValuesArePlain(v);
    TabChangeKeepsSort(params, value);
    var p1 := AfterTab(params, value).value;
    ReadKeepsPlain(value);
    ReadFilterIdempotent(value);
    assert CurrentSort(p1) == v && CurrentFilter(p1) == ReadFilter(value);
    SortClickKeepsFilter(p1);
    SortClickKeepsFilter(params);
    var p2 := AfterSortClick(params).value;
    var next := DashboardSortButton.NextSortOf(v);
    assert next in DashboardPostList.SortOptions;
    SortValuesArePlain(next);
    TabChangeKeepsSort(p2, value);
  }
}
