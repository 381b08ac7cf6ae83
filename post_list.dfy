/**
 * The dashboard's post list: it normalises the raw `filter` and `sort`
 * parameters with enum schemas that fall back to a default, asks the
 * management query for the rows, and shows an empty-state message chosen by
 * the filter when there are none.
 */
module DashboardPostList {
  import opened Wrappers
  import opened Posts
  import Auth
  import opened PostQueries
  import opened DashboardUrl

  /** `z.enum(options).catch(fallback).parse(param)`: the parameter when it is one of the options, the fallback otherwise, absent included. */
  function Catch(options: seq<string>, fallback: string, param: Option<string>): (v: string)
    ensures fallback in options ==> v in options
    ensures v == fallback || param == Some(v)
    ensures param.Some? && param.value in options ==> v == param.value
  {
    if param.Some? && param.value in options then param.value else fallback
  }

  /** A schema with its fallback among its options is idempotent. */
  lemma CatchIdempotent(options: seq<string>, fallback: string, param: Option<string>)
    requires fallback in options
    ensures Catch(options, fallback, Some(Catch(options, fallback, param))) == Catch(options, fallback, param)
  {
  }

  const FilterOptions: seq<string> := ["all", "published", "drafts", "archived"]
  const SortOptions: seq<string> := ["newest", "oldest", "title"]

  /** The enum member's string. */
  function FilterName(m: FilterMode): string {
    match m
    case All => "all"
    case Published => "published"
    case Drafts => "drafts"
    case Archived => "archived"
  }

  function SortName(m: SortMode): string {
    match m
    case Newest => "newest"
    case Oldest => "oldest"
    case Title => "title"
  }

  /** `filterSchema.parse(filter)`: the enum member the list works with. */
  function ValidFilter(param: Option<string>): (m: FilterMode)
    ensures FilterName(m) == Catch(FilterOptions, "all", param)
  {
    if param == Some("published") then Published
    else if param == Some("drafts") then Drafts
    else if param == Some("archived") then Archived
    else All
  }

  /** `sortSchema.parse(sort)`. */
  function ValidSort(param: Option<string>): (m: SortMode)
    ensures SortName(m) == Catch(SortOptions, "newest", param)
  {
    if param == Some("oldest") then Oldest
    else if param == Some("title") then Title
    else Newest
  }

  /** The filter normaliser is the identity on the enum and idempotent. */
  lemma FilterNormaliserRoundTrip(m: FilterMode, param: Option<string>)
    ensures ValidFilter(Some(FilterName(m))) == m
    ensures FilterName(m) in FilterOptions
    ensures ValidFilter(Some(FilterName(ValidFilter(param)))) == ValidFilter(param)
  {
  }

  /** Anything but an option, absent included, is read as `all`. */
  lemma UnknownFilterIsAll(param: Option<string>)
    requires param.None? || param.value !in FilterOptions
    ensures ValidFilter(param) == All
  {
  }

  /** The sort normaliser is the identity on the enum and idempotent. */
  lemma SortNormaliserRoundTrip(m: SortMode, param: Option<string>)
    ensures ValidSort(Some(SortName(m))) == m
    ensures SortName(m) in SortOptions
    ensures ValidSort(Some(SortName(ValidSort(param)))) == ValidSort(param)
  {
  }

  /** Anything but an option, absent included, is read as `newest`. */
  lemma UnknownSortIsNewest(param: Option<string>)
    requires param.None? || param.value !in SortOptions
    ensures ValidSort(param) == Newest
  {
  }

  /** The empty-state text, by filter. */
  function EmptyMessage(filter: FilterMode): string {
    if filter == Archived then "No archived posts."
    else if filter == Drafts then "No drafts yet."
    else if filter == Published then "No published posts yet."
    else "No posts yet. Create your first post!"
  }

  /** Each filter has its own empty-state message. */
  lemma EmptyMessagesDistinct(a: FilterMode, b: FilterMode)
    ensures EmptyMessage(a) == EmptyMessage(b) <==> a == b
  {
    if a != b {
      var ma, mb := EmptyMessage(a), EmptyMessage(b);
      assert ma[3] != mb[3] || ma[4] != mb[4];
    }
  }

  /** What the list shows: the gate's refusal, the empty state, or one card per row. */
  datatype View = Refused | EmptyState(message: string) | Cards(posts: seq<Post>)

  /** `PostList({ searchParams })`. */
  ghost function PostList(session: Auth.Session, t: Table, params: Params): (v: View)
    ensures v.Refused? <==> !Auth.CanManagePosts(session)
    ensures v.EmptyState? ==> v.message == EmptyMessage(ValidFilter(params.filter))
    ensures v.Cards? ==> v.posts != [] && IsListing(t, Some(ValidFilter(params.filter)), Some(ValidSort(params.sort)), v.posts)
  {
    var r := GetPosts(session, t, Some(ValidFilter(params.filter)), Some(ValidSort(params.sort)));
    if r.Unauthorized? then Refused
    else if r.value == [] then EmptyState(EmptyMessage(ValidFilter(params.filter)))
    else Cards(r.value)
  }

  /** The empty state shows exactly when no row of the table passes the normalised filter. */
  lemma EmptyStateIffNoneSelected(session: Auth.Session, t: Table, params: Params)
    requires Auth.CanManagePosts(session)
    ensures PostList(session, t, params).EmptyState? <==>
      forall p :: p in t.Values ==> !Selects(Some(ValidFilter(params.filter)), p)
  {
    var r := GetPosts(session, t, Some(ValidFilter(params.filter)), Some(ValidSort(params.sort)));
    assert IsListing(t, Some(ValidFilter(params.filter)), Some(ValidSort(params.sort)), r.value);
    if r.value != [] {
      assert r.value[0] in r.value;
    }
  }

  /** An unknown filter shows the same list as no filter at all, and an unknown sort the same as no sort. */
  lemma UnknownParamsShowDefaults(session: Auth.Session, t: Table, params: Params)
    requires params.filter.None? || params.filter.value !in FilterOptions
    requires params.sort.None? || params.sort.value !in SortOptions
    ensures PostList(session, t, params) == PostList(session, t, Params(None, None))
  {
    UnknownFilterIsAll(params.filter);
    UnknownSortIsNewest(params.sort);
    assert ValidFilter(params.filter) == ValidFilter(None);
    assert ValidSort(params.sort) == ValidSort(None);
  }

  /** The older posts page's normaliser, `filter === 'published' || filter === 'drafts' ? filter : 'all'`. */
  function LegacyValidFilter(param: Option<string>): (v: string)
    ensures v == Catch(["all", "published", "drafts"], "all", param)
  {
    if param == Some("published") || param == Some("drafts") then param.value else "all"
  }
}
