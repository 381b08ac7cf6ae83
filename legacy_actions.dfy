/**
 * The older mutation actions: keyed by post id, without authorization,
 * seed protection or archiving, with a single title-and-content check that
 * throws, and a single invalidated tag.
 */
module LegacyPostActions {
  import opened Posts
  import opened Validation

  /** What an action throws: its own validation error, or the database's missing-row error. */
  datatype Fault = Error(message: string) | RecordNotFound

  /** The older actions return nothing; they either finish or throw. */
  datatype Outcome = Done | Threw(fault: Fault)

  const RequiredMessage := "Title and content are required"

  /** The post table keyed by id and the log of invalidated cache tags. */
  datatype Db = Db(posts: Table, tags: seq<string>)

  datatype Step = Step(outcome: Outcome, db: Db)

  /** No row has this slug yet. */
  predicate SlugFree(t: Table, slug: string) {
    forall k :: k in t ==> t[k].slug != slug
  }

  /** Slugs are unique across the table. */
  predicate UniqueSlugs(t: Table) {
    forall k1, k2 :: k1 in t && k2 in t && k1 != k2 ==> t[k1].slug != t[k2].slug
  }

  /** The invariant of the older table: rows under their ids, slugs unique. */
  predicate WellFormed(t: Table) {
    KeyedById(t) && UniqueSlugs(t)
  }

  /**
   * The row `createPost` inserts. The action supplies title, content and the
   * flag; id, slug and creation time come from the database, the description
   * is left empty and both other flags start false.
   */
  function LegacyRow(id: string, slug: string, title: string, content: string, published: bool, now: int): Post {
    Post(id, slug, title, "", content, published, false, false, now)
  }

  /** The check `!title || !content` of both writing actions. */
  predicate MissingRequired(form: FormData) {
    TextField(form, "title") == "" || TextField(form, "content") == ""
  }

  /** `createPost(formData)`; `id`, `slug` and `now` are the values the database fills in. */
  function CreateStep(db: Db, form: FormData, id: string, slug: string, now: int): Step
    requires id !in db.posts && SlugFree(db.posts, slug)
  {
    if MissingRequired(form) then Step(Threw(Error(RequiredMessage)), db)
    else
      var row := LegacyRow(id, slug, TextField(form, "title"), TextField(form, "content"), Checkbox(form, "published"), now);
      Step(Done, Db(db.posts[id := row], db.tags + [PostsTag]))
  }

  /** `updatePost(id, formData)`. */
  function UpdateStep(db: Db, id: string, form: FormData): Step {
    if MissingRequired(form) then Step(Threw(Error(RequiredMessage)), db)
    else if id !in db.posts then Step(Threw(RecordNotFound), db)
    else
      var p := db.posts[id];
      var q := p.(title := TextField(form, "title"), content := TextField(form, "content"),
                  published := Checkbox(form, "published"));
      Step(Done, Db(db.posts[id := q], db.tags + [PostsTag]))
  }

  /** `deletePost(id)`. */
  function DeleteStep(db: Db, id: string): Step {
    if id !in db.posts then Step(Threw(RecordNotFound), db)
    else Step(Done, Db(db.posts - {id}, db.tags + [PostsTag]))
  }

  /** A missing title or content throws the validation error from both writing actions, and nothing changes. */
  lemma MissingFieldThrows(db: Db, form: FormData, id: string, slug: string, now: int)
    requires id !in db.posts && SlugFree(db.posts, slug)
    requires "title" !in form || form["title"] == "" || "content" !in form || form["content"] == ""
    ensures CreateStep(db, form, id, slug, now) == Step(Threw(Error(RequiredMessage)), db)
    ensures UpdateStep(db, id, form) == Step(Threw(Error(RequiredMessage)), db)
  {
  }

  /** Only a finished action touches the table or the tag log. */
  lemma OnlyDoneChanges(db: Db, form: FormData, id: string, slug: string, now: int)
    requires id !in db.posts && SlugFree(db.posts, slug)
    ensures CreateStep(db, form, id, slug, now).outcome.Threw? ==> CreateStep(db, form, id, slug, now).db == db
    ensures UpdateStep(db, id, form).outcome.Threw? ==> UpdateStep(db, id, form).db == db
    ensures DeleteStep(db, id).outcome.Threw? ==> DeleteStep(db, id).db == db
  {
  }

  /** A finished creation inserts one row with the submitted fields and invalidates the list tag. */
  lemma CreateInsertsOneRow(db: Db, form: FormData, id: string, slug: string, now: int)
    requires id !in db.posts && SlugFree(db.posts, slug)
    requires !MissingRequired(form)
    ensures var after := CreateStep(db, form, id, slug, now);
      var row := after.db.posts[id];
      after.outcome == Done &&
      after.db.posts.Keys == db.posts.Keys + {id} &&
      (forall k :: k in db.posts ==> after.db.posts[k] == db.posts[k]) &&
      row.title == form["title"] && row.content == form["content"] &&
      (row.published <==> "published" in form && form["published"] == "on") &&
      row.id == id && row.slug == slug && !row.archived && !row.seed &&
      after.db.tags == db.tags + [PostsTag]
  {
  }

  /** A finished edit replaces exactly title, content and the flag of that row, and invalidates only the list tag. */
  lemma UpdateReplacesFields(db: Db, id: string, form: FormData)
    requires !MissingRequired(form)
    ensures var after := UpdateStep(db, id, form);
      (id !in db.posts ==> after == Step(Threw(RecordNotFound), db)) &&
      (id in db.posts ==>
        var p, q := db.posts[id], after.db.posts[id];
        after.outcome == Done &&
        after.db.posts.Keys == db.posts.Keys &&
        (forall k :: k in db.posts && k != id ==> after.db.posts[k] == db.posts[k]) &&
        q.title == form["title"] && q.content == form["content"] &&
        (q.published <==> "published" in form && form["published"] == "on") &&
        q.id == p.id && q.slug == p.slug && q.description == p.description &&
        q.archived == p.archived && q.seed == p.seed && q.createdAt == p.createdAt &&
        after.db.tags == db.tags + [PostsTag])
  {
  }

  /** Deleting removes exactly that row, whatever the caller; a missing id throws. */
  lemma DeleteRemovesRow(db: Db, id: string)
    ensures var after := DeleteStep(db, id);
      (id !in db.posts ==> after == Step(Threw(RecordNotFound), db)) &&
      (id in db.posts ==>
        after.outcome == Done &&
        after.db.posts.Keys == db.posts.Keys - {id} &&
        (forall k :: k in after.db.posts ==> after.db.posts[k] == db.posts[k]) &&
        after.db.tags == db.tags + [PostsTag])
  {
  }

  /** Every action keeps the table well-formed. */
  lemma StepsKeepWellFormed(db: Db, form: FormData, id: string, slug: string, now: int)
    requires WellFormed(db.posts)
    ensures id !in db.posts && SlugFree(db.posts, slug) ==> WellFormed(CreateStep(db, form, id, slug, now).db.posts)
    ensures WellFormed(UpdateStep(db, id, form).db.posts)
    ensures WellFormed(DeleteStep(db, id).db.posts)
  {
  }

  class LegacyPostService {
    var posts: Table
    var tags: seq<string>

    ghost predicate Valid()
      reads this
    {
      WellFormed(posts)
    }

    ghost function State(): Db
      reads this
    {
      Db(posts, tags)
    }

    constructor (initial: Table)
      requires WellFormed(initial)
      ensures Valid() && posts == initial && tags == []
    {
      posts := initial;
      tags := [];
    }

    /** `createPost(formData)`; the database supplies a fresh id and slug and the creation time. */
    method CreatePost(form: FormData, id: string, slug: string, now: int) returns (o: Outcome)
      requires Valid()
      requires id !in posts && SlugFree(posts, slug)
      modifies this
      ensures Valid()
      ensures Step(o, State()) == CreateStep(old(State()), form, id, slug, now)
    {
      var title := TextField(form, "title");
      var content := TextField(form, "content");
      var published := Checkbox(form, "published");
      if title == "" || content == "" {
        return Threw(Error(RequiredMessage));
      }
      posts := posts[id := LegacyRow(id, slug, title, content, published, now)];
      tags := tags + [PostsTag];
      return Done;
    }

    /** `updatePost(id, formData)`. */
    method UpdatePost(id: string, form: FormData) returns (o: Outcome)
      requires Valid()
      modifies this
      ensures Valid()
      ensures Step(o, State()) == UpdateStep(old(State()), id, form)
    {
      var title := TextField(form, "title");
      var content := TextField(form, "content");
      var published := Checkbox(form, "published");
      if title == "" || content == "" {
        return Threw(Error(RequiredMessage));
      }
      if id !in posts {
        return Threw(RecordNotFound);
      }
      posts := posts[id := posts[id].(title := title, content := content, published := published)];
      tags := tags + [PostsTag];
      return Done;
    }

    /** `deletePost(id)`. */
    method DeletePost(id: string) returns (o: Outcome)
      requires Valid()
      modifies this
      ensures Valid()
      ensures Step(o, State()) == DeleteStep(old(State()), id)
    {
      if id !in posts {
        return Threw(RecordNotFound);
      }
      posts := posts - {id};
      tags := tags + [PostsTag];
      return Done;
    }
  }
}
