/**
 * The older read side: one list query with a three-valued filter, always
 * newest first, and a lookup by slug. Neither consults any authorization,
 * and the archived flag plays no role.
 */
module LegacyPostQueries {
  import opened Wrappers
  import opened Posts
  import PostQueries

  /** The filter argument of the older list. */
  datatype LegacyFilter = All | Published | Drafts

  /** The `where` chosen by the ternary; no filter, or `all`, means no `where`. */
  function WhereFor(filter: Option<LegacyFilter>): Where {
    if filter == Some(Published) then Where(None, Some(true))
    else if filter == Some(Drafts) then Where(None, Some(false))
    else Everything
  }

  /** Which posts each filter is meant to show. */
  predicate Selects(filter: Option<LegacyFilter>, p: Post) {
    match filter
    case Some(Published) => p.published
    case Some(Drafts) => !p.published
    case _ => true
  }

  lemma WhereForSelects(filter: Option<LegacyFilter>, p: Post)
    ensures Matches(WhereFor(filter), p) <==> Selects(filter, p)
  {
  }

  /** The filters never look at the archived flag. */
  lemma ArchivedPlaysNoRole(filter: Option<LegacyFilter>, p: Post, archived: bool)
    ensures Matches(WhereFor(filter), p) == Matches(WhereFor(filter), p.(archived := archived))
  {
  }

  /** `getPosts(filter)`: the selected rows, newest first. */
  ghost function GetPosts(t: Table, filter: Option<LegacyFilter>): (rows: seq<Post>)
    ensures Sorted(CreatedAtDesc, rows)
    ensures forall p :: p in rows <==> p in t.Values && Selects(filter, p)
    ensures DistinctRows(t) ==> NoDuplicates(rows)
  {
    var rows := FindMany(t, WhereFor(filter), CreatedAtDesc);
    assert forall p :: Matches(WhereFor(filter), p) <==> Selects(filter, p);
    rows
  }

  /** The published and the drafts lists split the whole table between them. */
  lemma PublishedAndDraftsPartitionTable(t: Table, p: Post)
    ensures p in t.Values <==> p in GetPosts(t, Some(Published)) || p in GetPosts(t, Some(Drafts))
    ensures !(p in GetPosts(t, Some(Published)) && p in GetPosts(t, Some(Drafts)))
    ensures p in GetPosts(t, None) <==> p in t.Values
  {
  }

  /** No row has that slug. */
  predicate NoSuchSlug(t: Table, slug: string) {
    forall k :: k in t ==> t[k].slug != slug
  }

  /** `getPostBySlug(slug)`: the row with that slug in the id-keyed table, or not-found. */
  ghost function GetPostBySlug(t: Table, slug: string): (r: PostQueries.QueryResult<Post>)
    ensures !r.Unauthorized?
    ensures r.NotFound? <==> NoSuchSlug(t, slug)
    ensures r.Ok? ==> r.value in t.Values && r.value.slug == slug
  {
    if NoSuchSlug(t, slug) then PostQueries.NotFound
    else
      var k :| k in t && t[k].slug == slug;
      PostQueries.Ok(t[k])
  }

  /** With unique slugs the lookup returns the one row that has the slug. */
  lemma GetPostBySlugIsTheRow(t: Table, k: string)
    requires forall k1, k2 :: k1 in t && k2 in t && k1 != k2 ==> t[k1].slug != t[k2].slug
    requires k in t
    ensures GetPostBySlug(t, t[k].slug) == PostQueries.Ok(t[k])
  {
  }
}
