/**
 * The post table shared by both generations of the service: one row per
 * post, the prisma `where` and `orderBy` arguments used against it, and the
 * cache tag names that reads attach and writes invalidate.
 */
module Posts {
  import opened Wrappers
  import Collation

  /** A row of the `post` table. `id`, `createdAt` and the flags' defaults are filled in by the database. */
  datatype Post = Post(
    id: string,
    slug: string,
    title: string,
    description: string,
    content: string,
    published: bool,
    archived: bool,
    seed: bool,
    createdAt: int)

  /** The table, indexed by one of its unique columns. */
  type Table = map<string, Post>

  /** Every row is stored under its own slug. */
  predicate KeyedBySlug(t: Table) {
    forall k :: k in t ==> t[k].slug == k
  }

  /** Every row is stored under its own id. */
  predicate KeyedById(t: Table) {
    forall k :: k in t ==> t[k].id == k
  }

  /** No two keys hold the same row. */
  predicate DistinctRows(t: Table) {
    forall k1, k2 :: k1 in t && k2 in t && k1 != k2 ==> t[k1] != t[k2]
  }

  lemma KeyedBySlugDistinct(t: Table)
    requires KeyedBySlug(t)
    ensures DistinctRows(t)
  {
  }

  lemma KeyedByIdDistinct(t: Table)
    requires KeyedById(t)
    ensures DistinctRows(t)
  {
  }

  // ---------------------------------------------------------------------
  // where

  /** A prisma `where` over the two flags; `None` leaves that column unconstrained. */
  datatype Where = Where(archived: Option<bool>, published: Option<bool>)

  const Everything := Where(None, None)

  predicate Matches(w: Where, p: Post) {
    (w.archived.Some? ==> p.archived == w.archived.value) &&
    (w.published.Some? ==> p.published == w.published.value)
  }

  /** Keeps the rows that match, in their order. */
  function Filter(w: Where, s: seq<Post>): (r: seq<Post>)
    ensures forall p :: p in r <==> p in s && Matches(w, p)
    ensures multiset(r) <= multiset(s)
  {
    if s == [] then []
    else
      assert s == [s[0]] + s[1..];
      if Matches(w, s[0]) then [s[0]] + Filter(w, s[1..]) else Filter(w, s[1..])
  }

  // ---------------------------------------------------------------------
  // orderBy

  datatype OrderBy = CreatedAtAsc | CreatedAtDesc | TitleAsc

  /** `p` may come before `q` in the order. */
  predicate Before(o: OrderBy, p: Post, q: Post) {
    match o
    case CreatedAtAsc => p.createdAt <= q.createdAt
    case CreatedAtDesc => p.createdAt >= q.createdAt
    case TitleAsc => Collation.LexLe(p.title, q.title)
  }

  lemma BeforeTotal(o: OrderBy, p: Post, q: Post)
    ensures Before(o, p, q) || Before(o, q, p)
  {
    if o == TitleAsc { Collation.LexLeTotal(p.title, q.title); }
  }

  lemma BeforeTransitive(o: OrderBy, p: Post, q: Post, r: Post)
    requires Before(o, p, q) && Before(o, q, r)
    ensures Before(o, p, r)
  {
    if o == TitleAsc { Collation.LexLeTransitive(p.title, q.title, r.title); }
  }

  predicate Sorted(o: OrderBy, s: seq<Post>) {
    forall i, j :: 0 <= i < j < |s| ==> Before(o, s[i], s[j])
  }

  /** Puts `p` in front of the first row it may precede. */
  function Insert(o: OrderBy, p: Post, s: seq<Post>): (r: seq<Post>)
    requires Sorted(o, s)
    ensures Sorted(o, r)
    ensures multiset(r) == multiset(s) + multiset{p}
  {
    if s == [] then [p]
    else if Before(o, p, s[0]) then
      InsertFront(o, p, s);
      [p] + s
    else
      BeforeTotal(o, p, s[0]);
      var rest := Insert(o, p, s[1..]);
      InsertBehind(o, s[0], rest, p, s[1..]);
      assert s == [s[0]] + s[1..];
      [s[0]] + rest
  }

  lemma InsertFront(o: OrderBy, p: Post, s: seq<Post>)
    requires Sorted(o, s) && s != [] && Before(o, p, s[0])
    ensures Sorted(o, [p] + s)
  {
    var r := [p] + s;
    forall i, j | 0 <= i < j < |r| ensures Before(o, r[i], r[j]) {
      if i == 0 && j > 1 { BeforeTransitive(o, p, s[0], s[j - 1]); }
    }
  }

  lemma InsertBehind(o: OrderBy, h: Post, rest: seq<Post>, p: Post, tail: seq<Post>)
    requires Sorted(o, rest) && Sorted(o, [h] + tail)
    requires Before(o, h, p)
    requires multiset(rest) == multiset(tail) + multiset{p}
    ensures Sorted(o, [h] + rest)
  {
    var r := [h] + rest;
    forall j | 0 < j < |r| ensures Before(o, h, r[j]) {
      var q := rest[j - 1];
      assert r[j] == q;
      assert q in multiset(rest);
      if q != p {
        assert q in multiset(tail);
        var k :| 0 <= k < |tail| && tail[k] == q;
        assert ([h] + tail)[0] == h && ([h] + tail)[k + 1] == q;
      }
    }
  }

  /** Insertion sort: the rows in the order, ties in no promised order. */
  function SortBy(o: OrderBy, s: seq<Post>): (r: seq<Post>)
    ensures Sorted(o, r)
    ensures multiset(r) == multiset(s)
  {
    if s == [] then []
    else
      assert s == [s[0]] + s[1..];
      Insert(o, s[0], SortBy(o, s[1..]))
  }

  // ---------------------------------------------------------------------
  // findMany

  /** A sequence in which no row occurs twice. */
  ghost predicate NoDuplicates(s: seq<Post>) {
    forall p :: multiset(s)[p] <= 1
  }

  /** The rows of a table in some order the database chooses. */
  ghost function Rows(t: Table): (r: seq<Post>)
    ensures forall p :: p in r <==> p in t.Values
    ensures |r| == |t.Keys|
    ensures DistinctRows(t) ==> NoDuplicates(r)
    decreases t.Keys
  {
    if t.Keys == {} then []
    else
      var k :| k in t;
      var rest := t - {k};
      RemoveKey(t, k);
      var r := Rows(rest);
      ConsNoDuplicates(t[k], r);
      [t[k]] + r
  }

  /** What taking one key out of a table leaves. */
  lemma RemoveKey(t: Table, k: string)
    requires k in t
    ensures (t - {k}).Keys == t.Keys - {k}
    ensures forall p :: p in t.Values <==> p == t[k] || p in (t - {k}).Values
    ensures DistinctRows(t) ==> DistinctRows(t - {k}) && t[k] !in (t - {k}).Values
  {
    var rest := t - {k};
    forall p | p in rest.Values ensures p in t.Values {
      var k' :| k' in rest && rest[k'] == p;
      assert t[k'] == p;
    }
    forall p | p in t.Values && p != t[k] ensures p in rest.Values {
      var k' :| k' in t && t[k'] == p;
      assert k' in rest && rest[k'] == p;
    }
  }

  lemma ConsNoDuplicates(x: Post, r: seq<Post>)
    ensures NoDuplicates(r) && x !in r ==> NoDuplicates([x] + r)
  {
    if NoDuplicates(r) && x !in r {
      assert multiset([x] + r) == multiset{x} + multiset(r);
    }
  }

  /** `findMany({ where: w, orderBy: o })`. */
  ghost function FindMany(t: Table, w: Where, o: OrderBy): (r: seq<Post>)
    ensures Sorted(o, r)
    ensures forall p :: p in r <==> p in t.Values && Matches(w, p)
    ensures DistinctRows(t) ==> NoDuplicates(r)
  {
    var rows := Rows(t);
    var r := SortBy(o, Filter(w, rows));
    assert forall p :: p in r <==> p in multiset(r);
    assert forall p :: multiset(r)[p] <= multiset(rows)[p];
    r
  }

  /** No two different rows of `s` tie in the order. */
  predicate NoTies(o: OrderBy, s: seq<Post>) {
    forall i, j :: 0 <= i < |s| && 0 <= j < |s| && s[i] != s[j] ==> !(Before(o, s[i], s[j]) && Before(o, s[j], s[i]))
  }

  lemma TailNoDuplicates(s: seq<Post>)
    requires s != [] && NoDuplicates(s)
    ensures NoDuplicates(s[1..]) && s[0] !in s[1..]
  {
    assert s == [s[0]] + s[1..];
    assert multiset(s) == multiset{s[0]} + multiset(s[1..]);
    forall p ensures multiset(s[1..])[p] <= 1 {
      assert multiset(s[1..])[p] <= multiset(s)[p];
    }
    assert multiset(s)[s[0]] == 1 + multiset(s[1..])[s[0]];
  }

  /** Without ties, the order and the set of rows fix the sequence. */
  lemma {:induction false} SortedUnique(o: OrderBy, a: seq<Post>, b: seq<Post>)
    requires Sorted(o, a) && Sorted(o, b)
    requires NoDuplicates(a) && NoDuplicates(b)
    requires forall p :: p in a <==> p in b
    requires NoTies(o, a)
    ensures a == b
    decreases |a|
  {
    if a != [] {
      SortedHeadsAgree(o, a, b);
      TailNoDuplicates(a);
      TailNoDuplicates(b);
      TailsSameRows(a, b);
      TailSorted(o, a);
      TailSorted(o, b);
      TailNoTies(o, a);
      SortedUnique(o, a[1..], b[1..]);
      assert a == [a[0]] + a[1..] && b == [b[0]] + b[1..];
    } else {
      HeadIsMember(b);
    }
  }

  /** Two sorted sequences with the same members and no ties open with the same row. */
  lemma SortedHeadsAgree(o: OrderBy, a: seq<Post>, b: seq<Post>)
    requires a != [] && Sorted(o, a) && Sorted(o, b)
    requires forall p :: p in a <==> p in b
    requires NoTies(o, a)
    ensures b != [] && a[0] == b[0]
  {
    assert a[0] in b;
    var j :| 0 <= j < |b| && b[j] == a[0];
    assert b[0] in b;
    var i :| 0 <= i < |a| && a[i] == b[0];
    assert i == 0 || Before(o, a[0], a[i]);
    assert j == 0 || Before(o, b[0], b[j]);
    var x, y := a[0], a[i];
    assert x != y ==> !(Before(o, x, y) && Before(o, y, x));
  }

  lemma TailsSameRows(a: seq<Post>, b: seq<Post>)
    requires a != [] && b != [] && a[0] == b[0]
    requires a[0] !in a[1..] && b[0] !in b[1..]
    requires forall p :: p in a <==> p in b
    ensures forall p :: p in a[1..] <==> p in b[1..]
  {
    forall p ensures p in a[1..] <==> p in b[1..] {
      assert p in a <==> p == a[0] || p in a[1..];
      assert p in b <==> p == b[0] || p in b[1..];
    }
  }

  lemma TailSorted(o: OrderBy, a: seq<Post>)
    requires a != [] && Sorted(o, a)
    ensures Sorted(o, a[1..])
  {
    var t := a[1..];
    forall i, j | 0 <= i < j < |t| ensures Before(o, t[i], t[j]) {
      assert t[i] == a[i + 1] && t[j] == a[j + 1];
    }
  }

  lemma TailNoTies(o: OrderBy, a: seq<Post>)
    requires a != [] && NoTies(o, a)
    ensures NoTies(o, a[1..])
  {
    var t := a[1..];
    forall i, j | 0 <= i < |t| && 0 <= j < |t|
      ensures t[i] != t[j] ==> !(Before(o, t[i], t[j]) && Before(o, t[j], t[i]))
    {
      assert t[i] == a[i + 1] && t[j] == a[j + 1];
    }
  }

  lemma HeadIsMember(s: seq<Post>)
    ensures s == [] || s[0] in s
  {
  }

  /** The rows in the opposite order. */
  function Reverse(s: seq<Post>): (r: seq<Post>)
    ensures |r| == |s|
    ensures forall i :: 0 <= i < |s| ==> r[i] == s[|s| - 1 - i]
    ensures multiset(r) == multiset(s)
  {
    if s == [] then []
    else
      assert s == [s[0]] + s[1..];
      Reverse(s[1..]) + [s[0]]
  }

  /** Reversing keeps the members and their multiplicities. */
  lemma ReverseSameRows(s: seq<Post>)
    ensures forall p :: p in Reverse(s) <==> p in s
    ensures NoDuplicates(s) ==> NoDuplicates(Reverse(s))
  {
    var r := Reverse(s);
    forall p ensures p in r <==> p in s {
      assert p in r <==> p in multiset(r);
      assert p in s <==> p in multiset(s);
    }
  }

  /** Newest first, read backwards, is oldest first. */
  lemma ReverseNewestIsOldest(s: seq<Post>)
    requires Sorted(CreatedAtDesc, s)
    ensures Sorted(CreatedAtAsc, Reverse(s))
  {
    var r, n := Reverse(s), |s|;
    forall i, j | 0 <= i < j < n ensures Before(CreatedAtAsc, r[i], r[j]) {
      assert r[i] == s[n - 1 - i] && r[j] == s[n - 1 - j];
      assert Before(CreatedAtDesc, s[n - 1 - j], s[n - 1 - i]);
    }
  }

  // ---------------------------------------------------------------------
  // cache tags

  /** The tag of every list read. */
  const PostsTag: string := "posts"

  /** The tag of the read of one post. */
  function PostTag(slug: string): string {
    "post-" + slug
  }

  /** The per-post tags name their posts apart, and none is the list tag. */
  lemma TagsDistinct(a: string, b: string)
    ensures PostTag(a) == PostTag(b) <==> a == b
    ensures PostTag(a) != PostsTag
  {
    if PostTag(a) == PostTag(b) {
      assert a == PostTag(a)[5..] && b == PostTag(b)[5..];
    }
    assert PostTag(a)[4] == '-' && PostsTag[4] == 's';
  }
}
