/**
 * The mutation side of the current service: four server actions over the
 * slug-keyed post table, each gated by `canManagePosts`, and the log of the
 * cache tags they invalidate.
 *
 * Each action is specified by a step function from the old table and tag log
 * to the outcome and the new table and tag log; the `PostService` methods are
 * proved to perform exactly those steps, and the lemmas below state what the
 * steps promise.
 */
module PostActions {
  import opened Wrappers
  import opened Posts
  import opened Validation
  import Auth
  import Slug
  import PostQueries

  /** `ActionResult`: success, or an error message with the echoed fields when validation failed. */
  datatype ActionResult = Success | Failure(error: string, formData: Option<RawPost>)

  /** What the database throws: an update or delete of a row that does not exist. */
  datatype Fault = RecordNotFound

  /** An action either returns its result or lets the database's exception through. */
  datatype Outcome = Returned(result: ActionResult) | Threw(fault: Fault)

  /** The seed-protection switch of the source, which is on. */
  const ProtectSeedPosts := true

  const Refused := Failure("Unauthorized", None)

  /** The post table and the log of invalidated cache tags. */
  datatype Db = Db(posts: Table, tags: seq<string>)

  /** An outcome and the state after it. */
  datatype Step = Step(outcome: Outcome, db: Db)

  /** `checkSeedPostProtection(slug, action)`: the refusal for a seed post, when protection is on. */
  function SeedProtection(protect: bool, t: Table, slug: string, action: string): Option<ActionResult> {
    if !protect then None
    else if slug in t && t[slug].seed then Some(Failure("Seed posts cannot be " + action, None))
    else None
  }

  /** The row `createPost` inserts; the database fills in id and creation time, and both flags start false. */
  function NewRow(id: string, slug: string, raw: RawPost, now: int): Post {
    Post(id, slug, raw.title, raw.description, raw.content, raw.published, false, false, now)
  }

  /** The row `updatePost` leaves: the four submitted fields replaced, every other column kept. */
  function Edited(p: Post, raw: RawPost): Post {
    p.(title := raw.title, description := raw.description, content := raw.content, published := raw.published)
  }

  // ---------------------------------------------------------------------
  // the four actions as steps

  ghost function CreateStep(db: Db, session: Auth.Session, form: FormData, id: string, now: int): Step {
    var raw := RawFromForm(form);
    if !Auth.CanManagePosts(session) then Step(Returned(Refused), db)
    else if Validate(raw).Some? then Step(Returned(Failure(Validate(raw).value, Some(raw))), db)
    else
      var slug := Slug.FirstFree(Slug.GenerateSlug(raw.title), db.posts.Keys);
      Step(Returned(Success), Db(db.posts[slug := NewRow(id, slug, raw, now)], db.tags + [PostsTag]))
  }

  function UpdateStep(protect: bool, db: Db, session: Auth.Session, slug: string, form: FormData): Step {
    var raw := RawFromForm(form);
    var seedError := SeedProtection(protect, db.posts, slug, "edited");
    if !Auth.CanManagePosts(session) then Step(Returned(Refused), db)
    else if seedError.Some? then Step(Returned(seedError.value), db)
    else if Validate(raw).Some? then Step(Returned(Failure(Validate(raw).value, Some(raw))), db)
    else if slug !in db.posts then Step(Threw(RecordNotFound), db)
    else Step(Returned(Success), Db(db.posts[slug := Edited(db.posts[slug], raw)],
                                    db.tags + [PostsTag, PostTag(slug)]))
  }

  function DeleteStep(protect: bool, db: Db, session: Auth.Session, slug: string): Step {
    var seedError := SeedProtection(protect, db.posts, slug, "deleted");
    if !Auth.CanManagePosts(session) then Step(Returned(Refused), db)
    else if seedError.Some? then Step(Returned(seedError.value), db)
    else if slug !in db.posts then Step(Threw(RecordNotFound), db)
    else Step(Returned(Success), Db(db.posts - {slug}, db.tags + [PostsTag, PostTag(slug)]))
  }

  function ToggleArchiveStep(db: Db, session: Auth.Session, slug: string, archived: bool): Step {
    if !Auth.CanManagePosts(session) then Step(Returned(Refused), db)
    else if slug !in db.posts then Step(Threw(RecordNotFound), db)
    else Step(Returned(Success), Db(db.posts[slug := db.posts[slug].(archived := archived)],
                                    db.tags + [PostsTag, PostTag(slug)]))
  }

  // ---------------------------------------------------------------------
  // what the steps promise

  /** A refused caller gets `Unauthorized` from every action, before any other check, and nothing changes. */
  lemma RefusedBeforeAnyCheck(protect: bool, db: Db, session: Auth.Session, form: FormData,
                              id: string, now: int, slug: string, archived: bool)
    requires !Auth.CanManagePosts(session)
    ensures CreateStep(db, session, form, id, now) == Step(Returned(Refused), db)
    ensures UpdateStep(protect, db, session, slug, form) == Step(Returned(Refused), db)
    ensures DeleteStep(protect, db, session, slug) == Step(Returned(Refused), db)
    ensures ToggleArchiveStep(db, session, slug, archived) == Step(Returned(Refused), db)
  {
  }

  /** Only a successful action touches the table or the tag log. */
  lemma OnlySuccessChanges(protect: bool, db: Db, session: Auth.Session, form: FormData,
                           id: string, now: int, slug: string, archived: bool)
    ensures CreateStep(db, session, form, id, now).outcome != Returned(Success) ==>
      CreateStep(db, session, form, id, now).db == db
    ensures UpdateStep(protect, db, session, slug, form).outcome != Returned(Success) ==>
      UpdateStep(protect, db, session, slug, form).db == db
    ensures DeleteStep(protect, db, session, slug).outcome != Returned(Success) ==>
      DeleteStep(protect, db, session, slug).db == db
    ensures ToggleArchiveStep(db, session, slug, archived).outcome != Returned(Success) ==>
      ToggleArchiveStep(db, session, slug, archived).db == db
  {
  }

  /** A rejected submission reports the first issue and echoes the fields as read from the form. */
  lemma RejectedSubmissionIsEchoed(protect: bool, db: Db, session: Auth.Session, form: FormData,
                                   id: string, now: int, slug: string)
    requires Auth.CanManagePosts(session)
    requires Validate(RawFromForm(form)).Some?
    ensures var echo := Returned(Failure(Validate(RawFromForm(form)).value, Some(RawFromForm(form))));
      CreateStep(db, session, form, id, now) == Step(echo, db) &&
      (SeedProtection(protect, db.posts, slug, "edited").None? ==>
         UpdateStep(protect, db, session, slug, form) == Step(echo, db))
  {
  }

  /** An empty form is rejected with the content issue, and every echoed field is empty. */
  lemma EmptyFormIsRejected(db: Db, id: string, now: int)
    ensures CreateStep(db, Auth.MockSession, map[], id, now) ==
      Step(Returned(Failure("Content is required", Some(RawPost("", "", "", false)))), db)
  {
    EmptyFormReportsContent();
  }

  /** An accepted creation inserts one row under the first free candidate slug and invalidates the list tag. */
  lemma CreateInsertsOneRow(db: Db, session: Auth.Session, form: FormData, id: string, now: int)
    requires Auth.CanManagePosts(session)
    requires Validate(RawFromForm(form)).None?
    ensures var raw, after := RawFromForm(form), CreateStep(db, session, form, id, now);
      var slug := Slug.FirstFree(Slug.GenerateSlug(raw.title), db.posts.Keys);
      after.outcome == Returned(Success) &&
      slug !in db.posts &&
      after.db.posts.Keys == db.posts.Keys + {slug} &&
      (forall k :: k in db.posts ==> after.db.posts[k] == db.posts[k]) &&
      after.db.posts[slug] == NewRow(id, slug, raw, now) &&
      after.db.tags == db.tags + [PostsTag]
  {
  }

  /** The new slug is the first of `base`, `base-1`, `base-2`, ... that is not taken. */
  lemma CreatedSlugIsFirstFree(db: Db, session: Auth.Session, form: FormData, id: string, now: int)
    requires Auth.CanManagePosts(session)
    requires Validate(RawFromForm(form)).None?
    ensures var base := Slug.GenerateSlug(RawFromForm(form).title);
      exists n: nat :: Slug.FirstFreeAt(base, db.posts.Keys, n) &&
                       CreateStep(db, session, form, id, now).db.posts.Keys == db.posts.Keys + {Slug.Candidate(base, n)}
  {
    var base := Slug.GenerateSlug(RawFromForm(form).title);
    var n := Slug.FirstFreeIndex(base, db.posts.Keys);
    assert Slug.FirstFreeAt(base, db.posts.Keys, n);
  }

  /** What is created can be read back: the management lookup returns the submitted fields. */
  lemma CreateThenRead(db: Db, session: Auth.Session, form: FormData, id: string, now: int)
    requires KeyedBySlug(db.posts)
    requires Auth.CanManagePosts(session)
    requires Validate(RawFromForm(form)).None?
    ensures var raw, after := RawFromForm(form), CreateStep(db, session, form, id, now);
      var slug := Slug.FirstFree(Slug.GenerateSlug(raw.title), db.posts.Keys);
      KeyedBySlug(after.db.posts) &&
      PostQueries.GetPostBySlug(session, after.db.posts, slug).Ok? &&
      RawOf(PostQueries.GetPostBySlug(session, after.db.posts, slug).value) == raw
  {
  }

  /** The four submitted fields of a row. */
  function RawOf(p: Post): RawPost {
    RawPost(p.title, p.description, p.content, p.published)
  }

  /** Two accepted creations with one title from an empty table take the base slug, then the base with `-1`. */
  lemma SameTitleTwiceFromEmpty(session: Auth.Session, form: FormData, id1: string, id2: string, now1: int, now2: int)
    requires Auth.CanManagePosts(session)
    requires Validate(RawFromForm(form)).None?
    ensures var base := Slug.GenerateSlug(RawFromForm(form).title);
      var first := CreateStep(Db(map[], []), session, form, id1, now1);
      var second := CreateStep(first.db, session, form, id2, now2);
      first.db.posts.Keys == {base} &&
      second.db.posts.Keys == {base, base + "-1"}
  {
    var base := Slug.GenerateSlug(RawFromForm(form).title);
    Slug.SecondCreateGetsSuffix(base);
    var first := CreateStep(Db(map[], []), session, form, id1, now1);
    CreateInsertsOneRow(Db(map[], []), session, form, id1, now1);
    assert first.db.posts.Keys == {base};
    CreateInsertsOneRow(first.db, session, form, id2, now2);
  }

  /** Two accepted posts created under the title "My Post" get the slugs `my-post` and `my-post-1`. */
  lemma SameTitleTwice(session: Auth.Session, form: FormData, id1: string, id2: string, now1: int, now2: int)
    requires Auth.CanManagePosts(session)
    requires Validate(RawFromForm(form)).None?
    requires RawFromForm(form).title == "My Post"
    ensures var first := CreateStep(Db(map[], []), session, form, id1, now1);
      var second := CreateStep(first.db, session, form, id2, now2);
      first.db.posts.Keys == {"my-post"} &&
      second.db.posts.Keys == {"my-post", "my-post-1"}
  {
    Slug.GenerateSlugMyPost();
    SameTitleTwiceFromEmpty(session, form, id1, id2, now1, now2);
    assert "my-post" + "-1" == "my-post-1";
  }

  /** A seed post can be neither edited nor deleted while protection is on, whatever is submitted; archiving is not guarded. */
  lemma SeedPostIsProtected(db: Db, session: Auth.Session, slug: string, form: FormData, archived: bool)
    requires Auth.CanManagePosts(session)
    requires slug in db.posts && db.posts[slug].seed
    ensures UpdateStep(ProtectSeedPosts, db, session, slug, form) ==
      Step(Returned(Failure("Seed posts cannot be edited", None)), db)
    ensures DeleteStep(ProtectSeedPosts, db, session, slug) ==
      Step(Returned(Failure("Seed posts cannot be deleted", None)), db)
    ensures ToggleArchiveStep(db, session, slug, archived).outcome == Returned(Success)
  {
    assert "Seed posts cannot be " + "edited" == "Seed posts cannot be edited";
    assert "Seed posts cannot be " + "deleted" == "Seed posts cannot be deleted";
  }

  /** The order of the checks in `updatePost`: validation comes before the row lookup. */
  lemma UpdateChecksInOrder(protect: bool, db: Db, session: Auth.Session, slug: string, form: FormData)
    requires Auth.CanManagePosts(session)
    requires slug !in db.posts
    ensures Validate(RawFromForm(form)).Some? ==>
      UpdateStep(protect, db, session, slug, form).outcome.Returned?
    ensures Validate(RawFromForm(form)).None? ==>
      UpdateStep(protect, db, session, slug, form) == Step(Threw(RecordNotFound), db)
  {
  }

  /** An accepted edit replaces exactly the four submitted fields of that row. */
  lemma UpdateReplacesFields(protect: bool, db: Db, session: Auth.Session, slug: string, form: FormData)
    requires Auth.CanManagePosts(session)
    requires SeedProtection(protect, db.posts, slug, "edited").None?
    requires Validate(RawFromForm(form)).None?
    requires slug in db.posts
    ensures var raw, after := RawFromForm(form), UpdateStep(protect, db, session, slug, form);
      var p, q := db.posts[slug], after.db.posts[slug];
      after.outcome == Returned(Success) &&
      after.db.posts.Keys == db.posts.Keys &&
      (forall k :: k in db.posts && k != slug ==> after.db.posts[k] == db.posts[k]) &&
      RawOf(q) == raw &&
      q.id == p.id && q.slug == p.slug && q.archived == p.archived && q.seed == p.seed && q.createdAt == p.createdAt &&
      after.db.tags == db.tags + [PostsTag, PostTag(slug)]
  {
  }

  /** An accepted delete removes exactly that row. */
  lemma DeleteRemovesRow(protect: bool, db: Db, session: Auth.Session, slug: string)
    requires Auth.CanManagePosts(session)
    requires SeedProtection(protect, db.posts, slug, "deleted").None?
    requires slug in db.posts
    ensures var after := DeleteStep(protect, db, session, slug);
      after.outcome == Returned(Success) &&
      after.db.posts.Keys == db.posts.Keys - {slug} &&
      (forall k :: k in after.db.posts ==> after.db.posts[k] == db.posts[k]) &&
      after.db.tags == db.tags + [PostsTag, PostTag(slug)]
  {
  }

  /** Archiving sets the flag and nothing else; a missing row throws. */
  lemma ToggleSetsFlag(db: Db, session: Auth.Session, slug: string, archived: bool)
    requires Auth.CanManagePosts(session)
    ensures var after := ToggleArchiveStep(db, session, slug, archived);
      (slug !in db.posts ==> after == Step(Threw(RecordNotFound), db)) &&
      (slug in db.posts ==>
        after.db.posts.Keys == db.posts.Keys &&
        after.db.posts[slug] == db.posts[slug].(archived := archived) &&
        (forall k :: k in db.posts && k != slug ==> after.db.posts[k] == db.posts[k]))
  {
  }

  /** Archiving twice with the same flag leaves the table as archiving once. */
  lemma ToggleIdempotent(db: Db, session: Auth.Session, slug: string, archived: bool)
    ensures var once := ToggleArchiveStep(db, session, slug, archived);
      ToggleArchiveStep(once.db, session, slug, archived).db.posts == once.db.posts
  {
    var once := ToggleArchiveStep(db, session, slug, archived);
    if Auth.CanManagePosts(session) && slug in db.posts {
      assert once.db.posts[slug].(archived := archived) == once.db.posts[slug];
    }
  }

  /** Every action keeps each row under its own slug. */
  lemma StepsKeepSlugKeys(protect: bool, db: Db, session: Auth.Session, form: FormData,
                          id: string, now: int, slug: string, archived: bool)
    requires KeyedBySlug(db.posts)
    ensures KeyedBySlug(CreateStep(db, session, form, id, now).db.posts)
    ensures KeyedBySlug(UpdateStep(protect, db, session, slug, form).db.posts)
    ensures KeyedBySlug(DeleteStep(protect, db, session, slug).db.posts)
    ensures KeyedBySlug(ToggleArchiveStep(db, session, slug, archived).db.posts)
  {
  }

  // ---------------------------------------------------------------------
  // cache coherence

  /** The log only grows: `after` holds the tags of `before`, then what the action appended. */
  predicate AppendOnly(before: Db, after: Db) {
    |before.tags| <= |after.tags| && after.tags[..|before.tags|] == before.tags
  }

  /** The tags an action appended. */
  function Added(before: Db, after: Db): seq<string>
    requires AppendOnly(before, after)
  {
    after.tags[|before.tags|..]
  }

  /** If the public list now answers differently, its tag was invalidated. */
  ghost predicate ListReadInvalidated(before: Db, after: Db)
    requires AppendOnly(before, after)
  {
    PostQueries.GetPublishedPosts(after.posts) != PostQueries.GetPublishedPosts(before.posts) ==>
      PostsTag in Added(before, after)
  }

  /** If the public read of `x` now answers differently, its tag was invalidated. */
  predicate PostReadInvalidated(before: Db, after: Db, x: string)
    requires AppendOnly(before, after)
    requires KeyedBySlug(before.posts) && KeyedBySlug(after.posts)
  {
    PostQueries.GetPublishedPostBySlug(after.posts, x) != PostQueries.GetPublishedPostBySlug(before.posts, x) ==>
      PostTag(x) in Added(before, after)
  }

  /** The public read of one slug depends on the row under that slug only. */
  lemma SameRowSameRead(t1: Table, t2: Table, x: string)
    requires KeyedBySlug(t1) && KeyedBySlug(t2)
    requires x in t1 <==> x in t2
    requires x in t1 ==> t1[x] == t2[x]
    ensures PostQueries.GetPublishedPostBySlug(t1, x) == PostQueries.GetPublishedPostBySlug(t2, x)
  {
  }

  /** A step that changed nothing invalidated nothing, and needed to invalidate nothing. */
  lemma UnchangedIsCoherent(db: Db, x: string)
    requires KeyedBySlug(db.posts)
    ensures AppendOnly(db, db) && ListReadInvalidated(db, db) && PostReadInvalidated(db, db, x)
  {
    assert db.tags[..|db.tags|] == db.tags;
  }

  /** A step that rewrote at most the row under `slug` and appended both tags is coherent. */
  lemma OneRowStepIsCoherent(db: Db, after: Db, slug: string, x: string)
    requires KeyedBySlug(db.posts) && KeyedBySlug(after.posts)
    requires after.tags == db.tags + [PostsTag, PostTag(slug)]
    requires x != slug ==> (x in after.posts <==> x in db.posts)
    requires x != slug && x in db.posts ==> after.posts[x] == db.posts[x]
    ensures AppendOnly(db, after) && ListReadInvalidated(db, after) && PostReadInvalidated(db, after, x)
  {
    assert after.tags[..|db.tags|] == db.tags;
    assert Added(db, after) == [PostsTag, PostTag(slug)];
    if x != slug { SameRowSameRead(db.posts, after.posts, x); }
  }

  /** `updatePost` invalidates every public read it changes. */
  lemma UpdateIsCoherent(protect: bool, db: Db, session: Auth.Session, slug: string, form: FormData, x: string)
    requires KeyedBySlug(db.posts)
    ensures var after := UpdateStep(protect, db, session, slug, form).db;
      KeyedBySlug(after.posts) && AppendOnly(db, after) &&
      ListReadInvalidated(db, after) && PostReadInvalidated(db, after, x)
  {
    var after := UpdateStep(protect, db, session, slug, form).db;
    if after == db { UnchangedIsCoherent(db, x); } else { OneRowStepIsCoherent(db, after, slug, x); }
  }

  /** `deletePost` invalidates every public read it changes. */
  lemma DeleteIsCoherent(protect: bool, db: Db, session: Auth.Session, slug: string, x: string)
    requires KeyedBySlug(db.posts)
    ensures var after := DeleteStep(protect, db, session, slug).db;
      KeyedBySlug(after.posts) && AppendOnly(db, after) &&
      ListReadInvalidated(db, after) && PostReadInvalidated(db, after, x)
  {
    var after := DeleteStep(protect, db, session, slug).db;
    if after == db { UnchangedIsCoherent(db, x); } else { OneRowStepIsCoherent(db, after, slug, x); }
  }

  /** `toggleArchivePost` invalidates every public read it changes. */
  lemma ToggleArchiveIsCoherent(db: Db, session: Auth.Session, slug: string, archived: bool, x: string)
    requires KeyedBySlug(db.posts)
    ensures var after := ToggleArchiveStep(db, session, slug, archived).db;
      KeyedBySlug(after.posts) && AppendOnly(db, after) &&
      ListReadInvalidated(db, after) && PostReadInvalidated(db, after, x)
  {
    var after := ToggleArchiveStep(db, session, slug, archived).db;
    if after == db { UnchangedIsCoherent(db, x); } else { OneRowStepIsCoherent(db, after, slug, x); }
  }

  /**
   * `createPost` invalidates the list, and changes no public read of another
   * slug; the read of the new slug, which it does not invalidate, answered
   * not-found before it.
   */
  lemma CreateIsCoherent(db: Db, session: Auth.Session, form: FormData, id: string, now: int, x: string)
    requires KeyedBySlug(db.posts)
    ensures var after := CreateStep(db, session, form, id, now).db;
      var slug := Slug.FirstFree(Slug.GenerateSlug(RawFromForm(form).title), db.posts.Keys);
      KeyedBySlug(after.posts) && AppendOnly(db, after) && ListReadInvalidated(db, after) &&
      (x != slug ==> PostReadInvalidated(db, after, x)) &&
      PostQueries.GetPublishedPostBySlug(db.posts, slug).value == PostQueries.NotFound
  {
    var after := CreateStep(db, session, form, id, now).db;
    var slug := Slug.FirstFree(Slug.GenerateSlug(RawFromForm(form).title), db.posts.Keys);
    if after == db {
      UnchangedIsCoherent(db, x);
    } else {
      assert after.tags[..|db.tags|] == db.tags;
      assert Added(db, after) == [PostsTag];
      if x != slug { SameRowSameRead(db.posts, after.posts, x); }
    }
  }

  // ---------------------------------------------------------------------
  // the service

  class PostService {
    var posts: Table
    var tags: seq<string>
    const protectSeedPosts: bool

    ghost predicate Valid()
      reads this
    {
      KeyedBySlug(posts)
    }

    ghost function State(): Db
      reads this
    {
      Db(posts, tags)
    }

    constructor (initial: Table)
      requires KeyedBySlug(initial)
      ensures Valid() && posts == initial && tags == [] && protectSeedPosts == ProtectSeedPosts
    {
      posts := initial;
      tags := [];
      protectSeedPosts := ProtectSeedPosts;
    }

    /** `createPost(formData)`; `id` and `now` are the values the database fills in. */
    method CreatePost(session: Auth.Session, form: FormData, id: string, now: int) returns (o: Outcome)
      requires Valid()
      modifies this
      ensures Valid()
      ensures Step(o, State()) == CreateStep(old(State()), session, form, id, now)
    {
      if !Auth.CanManagePosts(session) {
        return Returned(Refused);
      }
      var raw := RawFromForm(form);
      var issue := Validate(raw);
      if issue.Some? {
        return Returned(Failure(issue.value, Some(raw)));
      }
      var slug := Slug.ProbeFreeSlug(Slug.GenerateSlug(raw.title), posts.Keys);
      posts := posts[slug := NewRow(id, slug, raw, now)];
      tags := tags + [PostsTag];
      return Returned(Success);
    }

    /** `updatePost(slug, formData)`. */
    method UpdatePost(session: Auth.Session, slug: string, form: FormData) returns (o: Outcome)
      requires Valid()
      modifies this
      ensures Valid()
      ensures Step(o, State()) == UpdateStep(protectSeedPosts, old(State()), session, slug, form)
    {
      if !Auth.CanManagePosts(session) {
        return Returned(Refused);
      }
      var seedError := SeedProtection(protectSeedPosts, posts, slug, "edited");
      if seedError.Some? {
        return Returned(seedError.value);
      }
      var raw := RawFromForm(form);
      var issue := Validate(raw);
      if issue.Some? {
        return Returned(Failure(issue.value, Some(raw)));
      }
      if slug !in posts {
        return Threw(RecordNotFound);
      }
      posts := posts[slug := Edited(posts[slug], raw)];
      tags := tags + [PostsTag, PostTag(slug)];
      return Returned(Success);
    }

    /** `deletePost(slug)`. */
    method DeletePost(session: Auth.Session, slug: string) returns (o: Outcome)
      requires Valid()
      modifies this
      ensures Valid()
      ensures Step(o, State()) == DeleteStep(protectSeedPosts, old(State()), session, slug)
    {
      if !Auth.CanManagePosts(session) {
        return Returned(Refused);
      }
      var seedError := SeedProtection(protectSeedPosts, posts, slug, "deleted");
      if seedError.Some? {
        return Returned(seedError.value);
      }
      if slug !in posts {
        return Threw(RecordNotFound);
      }
      posts := posts - {slug};
      tags := tags + [PostsTag, PostTag(slug)];
      return Returned(Success);
    }

    /** `toggleArchivePost(slug, archived)`: no seed protection. */
    method ToggleArchivePost(session: Auth.Session, slug: string, archived: bool) returns (o: Outcome)
      requires Valid()
      modifies this
      ensures Valid()
      ensures Step(o, State()) == ToggleArchiveStep(old(State()), session, slug, archived)
    {
      if !Auth.CanManagePosts(session) {
        return Returned(Refused);
      }
      if slug !in posts {
        return Threw(RecordNotFound);
      }
      posts := posts[slug := posts[slug].(archived := archived)];
      tags := tags + [PostsTag, PostTag(slug)];
      return Returned(Success);
    }
  }
}
