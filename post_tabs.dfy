/**
 * The dashboard's filter tabs: four tabs, the active one taken from the
 * `filter` parameter, and a tab change that navigates to the chosen filter
 * with the current sort.
 */
module DashboardPostTabs {
  import opened Wrappers
  import opened DashboardUrl
  import DashboardPostList

  datatype Tab = Tab(caption: string, value: string)

  /** `tabs`; `caption` is the tab's `label`. */
  const Tabs: seq<Tab> :=
    [Tab("All", "all"), Tab("Published", "published"), Tab("Drafts", "drafts"), Tab("Archived", "archived")]

  /** The tab values, in order. */
  function Values(tabs: seq<Tab>): (vs: seq<string>)
    ensures |vs| == |tabs|
    ensures forall i :: 0 <= i < |tabs| ==> vs[i] == tabs[i].value
  {
    if tabs == [] then [] else [tabs[0].value] + Values(tabs[1..])
  }

  /** The tabs offer exactly the list's filter options, in the same order. */
  lemma TabValuesAreFilters()
    ensures Values(Tabs) == DashboardPostList.FilterOptions
  {
    var vs := Values(Tabs);
    assert vs[0] == "all" && vs[1] == "published" && vs[2] == "drafts" && vs[3] == "archived";
  }

  /** `currentTab`: the raw filter parameter, `all` when absent; it is not checked against the tabs. */
  function ActiveTab(params: Params): string {
    CurrentFilter(params)
  }

  /** An absent filter makes `all` the active tab. */
  lemma AbsentFilterActivatesAll(sort: Option<string>)
    ensures ActiveTab(Params(None, sort)) == "all"
  {
  }

  /** `changeTab(value)`: the link it pushes, the value put in unvalidated with the current sort. */
  function ChangeTabHref(params: Params, value: string): string {
    Href(value, CurrentSort(params))
  }
}
