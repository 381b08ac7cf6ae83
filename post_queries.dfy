/**
 * The read side of the current service: the management queries, gated by
 * `canManagePosts`, and the public queries, which bake `published and not
 * archived` into their lookup and attach a cache tag to what they read.
 */
module PostQueries {
  import opened Wrappers
  import opened Posts
  import Auth

  /** The outcome of a read: a value, or the `unauthorized()` / `notFound()` signal. */
  datatype QueryResult<T> = Ok(value: T) | Unauthorized | NotFound

  /** A value read under a cache tag. */
  datatype Cached<T> = Cached(value: T, tag: string)

  /** The filter argument of the management list. */
  datatype FilterMode = All | Published | Drafts | Archived

  /** The sort argument of the management list. */
  datatype SortMode = Newest | Oldest | Title

  /** The `where` chosen by the filter's ternary chain; anything but the three named filters means `all`. */
  function WhereFor(filter: Option<FilterMode>): Where {
    if filter == Some(Archived) then Where(Some(true), None)
    else if filter == Some(Published) then Where(Some(false), Some(true))
    else if filter == Some(Drafts) then Where(Some(false), Some(false))
    else Where(Some(false), None)
  }

  /** The `orderBy` chosen by the sort's ternary chain; the default is newest first. */
  function OrderFor(sort: Option<SortMode>): OrderBy {
    if sort == Some(Oldest) then CreatedAtAsc
    else if sort == Some(Title) then TitleAsc
    else CreatedAtDesc
  }

  /** Which posts each filter is meant to show. */
  predicate Selects(filter: Option<FilterMode>, p: Post) {
    match filter
    case Some(Archived) => p.archived
    case Some(Published) => !p.archived && p.published
    case Some(Drafts) => !p.archived && !p.published
    case _ => !p.archived
  }

  /** The chosen `where` keeps exactly the posts the filter is meant to show. */
  lemma WhereForSelects(filter: Option<FilterMode>, p: Post)
    ensures Matches(WhereFor(filter), p) <==> Selects(filter, p)
  {
  }

  /**
   * What a list read may answer: the selected rows, each once, in the chosen
   * order. Rows that tie in the order may come in any order.
   */
  ghost predicate IsListing(t: Table, filter: Option<FilterMode>, sort: Option<SortMode>, rows: seq<Post>) {
    Sorted(OrderFor(sort), rows) &&
    (forall p :: p in rows <==> p in t.Values && Selects(filter, p)) &&
    (DistinctRows(t) ==> NoDuplicates(rows))
  }

  /** `getPosts(filter, sort)`: the filtered rows in the chosen order, or unauthorized before any read. */
  ghost function GetPosts(session: Auth.Session, t: Table, filter: Option<FilterMode>, sort: Option<SortMode>)
    : (r: QueryResult<seq<Post>>)
    ensures r.Unauthorized? <==> !Auth.CanManagePosts(session)
    ensures !r.NotFound?
    ensures r.Ok? ==> IsListing(t, filter, sort, r.value)
  {
    if !Auth.CanManagePosts(session) then Unauthorized
    else
      var rows := FindMany(t, WhereFor(filter), OrderFor(sort));
      assert forall p :: Matches(WhereFor(filter), p) <==> Selects(filter, p);
      Ok(rows)
  }

  /** A refused caller learns nothing about the table. */
  lemma GetPostsRefusedBeforeReading(session: Auth.Session, t1: Table, t2: Table,
                                     filter: Option<FilterMode>, sort: Option<SortMode>)
    requires !Auth.CanManagePosts(session)
    ensures GetPosts(session, t1, filter, sort) == GetPosts(session, t2, filter, sort) == Unauthorized
  {
  }

  /** No filter is the `all` filter, and no sort is the `newest` sort. */
  lemma GetPostsDefaults(session: Auth.Session, t: Table, filter: Option<FilterMode>, sort: Option<SortMode>)
    ensures GetPosts(session, t, None, sort) == GetPosts(session, t, Some(All), sort)
    ensures GetPosts(session, t, filter, None) == GetPosts(session, t, filter, Some(Newest))
  {
    assert WhereFor(None) == WhereFor(Some(All));
    assert OrderFor(None) == OrderFor(Some(Newest));
  }

  /** The published and the drafts listings split the `all` listing between them. */
  lemma PublishedAndDraftsPartitionAll(t: Table, sort: Option<SortMode>, all: seq<Post>, pub: seq<Post>, drafts: seq<Post>)
    requires IsListing(t, Some(All), sort, all)
    requires IsListing(t, Some(Published), sort, pub)
    requires IsListing(t, Some(Drafts), sort, drafts)
    ensures forall p :: p in all <==> p in pub || p in drafts
    ensures forall p :: !(p in pub && p in drafts)
  {
  }

  /** The `all` and the archived listings split the table between them. */
  lemma AllAndArchivedPartitionTable(t: Table, sort: Option<SortMode>, all: seq<Post>, archived: seq<Post>)
    requires IsListing(t, Some(All), sort, all)
    requires IsListing(t, Some(Archived), sort, archived)
    ensures forall p :: p in t.Values <==> p in all || p in archived
    ensures forall p :: !(p in all && p in archived)
  {
  }

  /** With distinct createdAt values the listing is fixed: two answers to the same read agree. */
  lemma ListingIsUnique(t: Table, filter: Option<FilterMode>, sort: Option<SortMode>, a: seq<Post>, b: seq<Post>)
    requires DistinctRows(t) && sort != Some(Title)
    requires forall p, q :: p in t.Values && q in t.Values && p != q ==> p.createdAt != q.createdAt
    requires IsListing(t, filter, sort, a) && IsListing(t, filter, sort, b)
    ensures a == b
  {
    assert NoTies(OrderFor(sort), a) by {
      forall i, j | 0 <= i < |a| && 0 <= j < |a| && a[i] != a[j]
        ensures !(Before(OrderFor(sort), a[i], a[j]) && Before(OrderFor(sort), a[j], a[i]))
      {
        assert a[i] in t.Values && a[j] in t.Values;
      }
    }
    SortedUnique(OrderFor(sort), a, b);
  }

  /** With distinct createdAt values the `oldest` listing is the `newest` listing reversed. */
  lemma OldestReversesNewest(t: Table, filter: Option<FilterMode>, a: seq<Post>, b: seq<Post>)
    requires DistinctRows(t)
    requires forall p, q :: p in t.Values && q in t.Values && p != q ==> p.createdAt != q.createdAt
    requires IsListing(t, filter, Some(Oldest), a) && IsListing(t, filter, Some(Newest), b)
    ensures a == Reverse(b)
  {
    ReversedListing(t, filter, b);
    ListingIsUnique(t, filter, Some(Oldest), a, Reverse(b));
  }

  lemma ReversedListing(t: Table, filter: Option<FilterMode>, b: seq<Post>)
    requires IsListing(t, filter, Some(Newest), b)
    ensures IsListing(t, filter, Some(Oldest), Reverse(b))
  {
    ReverseNewestIsOldest(b);
    ReverseSameRows(b);
  }

  /** `getPostBySlug(slug)`: the row under that slug, not-found when there is none, unauthorized first. */
  function GetPostBySlug(session: Auth.Session, t: Table, slug: string): (r: QueryResult<Post>)
    requires KeyedBySlug(t)
    ensures r.Unauthorized? <==> !Auth.CanManagePosts(session)
    ensures r.NotFound? <==> Auth.CanManagePosts(session) && forall p :: p in t.Values ==> p.slug != slug
    ensures r.Ok? ==> r.value in t.Values && r.value.slug == slug
  {
    if !Auth.CanManagePosts(session) then Unauthorized
    else if slug !in t then NotFound
    else Ok(t[slug])
  }

  /** The `where` of every public read. */
  const PublicWhere := Where(Some(false), Some(true))

  /** `getPublishedPosts()`: the published, unarchived posts, newest first, under the list tag. */
  ghost function GetPublishedPosts(t: Table): (c: Cached<seq<Post>>)
    ensures c.tag == PostsTag
    ensures Sorted(CreatedAtDesc, c.value)
    ensures forall p :: p in c.value <==> p in t.Values && p.published && !p.archived
    ensures DistinctRows(t) ==> NoDuplicates(c.value)
  {
    Cached(FindMany(t, PublicWhere, CreatedAtDesc), PostsTag)
  }

  /** The public list is the management list of published posts in its default order. */
  lemma PublicListIsPublishedList(session: Auth.Session, t: Table)
    requires Auth.CanManagePosts(session)
    ensures GetPublishedPosts(t).value == GetPosts(session, t, Some(Published), None).value
  {
    assert WhereFor(Some(Published)) == PublicWhere;
    assert OrderFor(None) == CreatedAtDesc;
  }

  /** `getPublishedPostBySlug(slug)`: found only for a published, unarchived post; tagged with its slug. */
  function GetPublishedPostBySlug(t: Table, slug: string): (c: Cached<QueryResult<Post>>)
    requires KeyedBySlug(t)
    ensures c.tag == PostTag(slug)
    ensures !c.value.Unauthorized?
    ensures c.value.Ok? ==> c.value.value.slug == slug && c.value.value in t.Values
    ensures c.value.Ok? ==> c.value.value.published && !c.value.value.archived
  {
    var found := if slug in t && Matches(PublicWhere, t[slug]) then Ok(t[slug]) else NotFound;
    Cached(found, PostTag(slug))
  }

  /** A missing, unpublished or archived post is not found by the public lookup. */
  lemma PublicLookupNotFound(t: Table, slug: string)
    requires KeyedBySlug(t)
    ensures GetPublishedPostBySlug(t, slug).value.NotFound? <==>
      slug !in t || !t[slug].published || t[slug].archived
  {
  }

  /** The public lookup finds exactly the posts of the public list. */
  lemma PublicLookupAgreesWithList(t: Table, p: Post)
    requires KeyedBySlug(t)
    ensures GetPublishedPostBySlug(t, p.slug).value == Ok(p) <==> p in GetPublishedPosts(t).value
  {
    if p in GetPublishedPosts(t).value {
      var k :| k in t && t[k] == p;
    }
  }
}
