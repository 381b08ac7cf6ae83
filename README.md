# Post layer of a Next.js demo blog, in Dafny

This project models the post-management layer of a small Next.js blog and
proves properties about that model. The layer has these parts:

- **Mutation service.** `createPost`, `updatePost`, `deletePost` and
  `toggleArchivePost` work on one post table keyed by slug. Each checks an
  authorization gate first. Update and delete also check seed-post
  protection. Input goes through first-failure validation. Each successful
  action appends cache tags to an append-only log.
- **Management and public queries.** `getPosts` takes a filter and a sort.
  `getPostBySlug` is a management lookup. The public `getPublishedPosts` and
  `getPublishedPostBySlug` build `published && !archived` into the lookup and
  carry the cache tags `posts` and `post-<slug>`.
- **Older variant.** A store keyed by id with no archive column, no auth and
  a single "title and content are required" check. Its queries filter on
  `published` only.
- **Authorization mocks.** `isAuthenticated`, `isAuthorized` and
  `canManagePosts`.
- **Text helpers.** Word count and read time.
- **Dashboard URL state.** The filter and sort normalisers of the post list
  and its empty-state messages. The sort button that cycles newest, oldest,
  title. The tabs that set the filter. Together the button and the tabs make
  a two-field state machine over `(filter, sort)`.

How the model is built:

- The database is a `map<string, Post>`. The tag log is a `seq<string>`.
- Each action is a step function from the old state to an outcome and a new
  state. The step functions are `CreateStep`, `UpdateStep`, `DeleteStep` and
  `ToggleArchiveStep`.
- A class, `PostService` (and `LegacyPostService` for the older variant),
  holds the table and the log as fields. Its methods update the fields in
  place and are proved equal to the step functions. `CreatePost` contains
  the slug-probe `while` loop, `Slug.ProbeFreeSlug`, which is proved to
  return the first free candidate.
- `findMany` is modelled by a ghost enumeration of the table's rows followed
  by an insertion sort on the requested order. Its contract fixes the
  members, the order and the absence of duplicates. The order of rows that
  tie is left open, as it is in the database.
- Mocked or external inputs are parameters:
  - auth is a `Session(authenticated, authorized)`; `MockSession` is the
    always-open mock;
  - the database-assigned `id` and `createdAt` are parameters, and so is the
    older variant's slug;
  - form data is a `map<string, string>`.
- Validation follows the code's order. The zod object reports its first issue in the order its keys are
  declared: content (required, then has an h1), description, published,
  title. So an empty form reports "Content is required", not the title
  error.

## Model

| member | source | states |
|---|---|---|
| Auth.CanManagePosts | data/queries/auth-queries.ts:20-22 | the gate is open exactly when the session is both authenticated and authorized |
| Auth.IsAuthenticated | data/queries/auth-queries.ts:5-9 | the `isAuthenticated` mock, read from the session; stated by `Auth.CanManagePosts`, `Auth.UnauthenticatedIsRefused` and `Auth.MockGateIsOpen` |
| Auth.IsAuthorized | data/queries/auth-queries.ts:13-17 | the `isAuthorized` mock, read from the session; stated by `Auth.CanManagePosts`, `Auth.UnauthorizedIsRefused` and `Auth.MockGateIsOpen` |
| Auth.UnauthenticatedIsRefused | data/queries/auth-queries.ts:21 | an unauthenticated session is refused whatever its authorization |
| Auth.UnauthorizedIsRefused | data/queries/auth-queries.ts:21 | an authenticated but unauthorized session is refused |
| Auth.MockGateIsOpen | data/queries/auth-queries.ts:5-17 | both mocks return true, so the gate is open for the mock session |
| Slug.ToLowerAscii | data/actions/post.ts:57 | lower-casing keeps the length and maps each ASCII capital to its small letter, leaving every other character |
| Slug.DropNonSlug | data/actions/post.ts:58 | drops exactly the leading characters outside `[a-z0-9]`; the rest starts with a slug character |
| Slug.CollapseRunsShape | data/actions/post.ts:58 | after replacing each run outside `[a-z0-9]` by one hyphen, only `[a-z0-9-]` remains and no two hyphens are adjacent |
| Slug.CollapseRuns | data/actions/post.ts:58 | `.replace(/[^a-z0-9]+/g, '-')`; stated by `Slug.CollapseRunsShape`, `Slug.CollapseFixesCollapsed` and `Slug.GenerateSlug` |
| Slug.TrimCollapsed | data/actions/post.ts:59 | removing one leading and one trailing hyphen from a collapsed string leaves a string that neither starts nor ends with a hyphen |
| Slug.TrimHyphens | data/actions/post.ts:59 | the second `.replace`, which removes one leading and one trailing hyphen; stated by `Slug.TrimCollapsed` and `Slug.GenerateSlug` |
| Slug.SlugEmptyIff | data/actions/post.ts:58-59 | the trimmed result is empty exactly when the lower-cased title has no slug character |
| Slug.GenerateSlug | data/actions/post.ts:55-60 | the slug holds only `[a-z0-9-]`, has no `--`, neither starts nor ends with `-`, and is empty exactly when the title has no ASCII letter or digit |
| Slug.CollapseFixesCollapsed | data/actions/post.ts:58 | the run-collapsing step leaves a collapsed string unchanged |
| Slug.GenerateSlugIdempotent | data/actions/post.ts:55-60 | generating a slug from a slug gives the same slug |
| Slug.SlugOfTwoWords | data/actions/post.ts:55-60 | two words with separators before, between and after them become `w1-w2` |
| Slug.GenerateSlugHelloWorld | data/actions/post.ts:55-60 | "Hello, World!" becomes "hello-world" |
| Slug.GenerateSlugAlreadySlugged | data/actions/post.ts:55-60 | "  Already--slugged  " becomes "already-slugged" |
| Slug.GenerateSlugMyPost | data/actions/post.ts:55-60 | "My Post" becomes "my-post" |
| Slug.CandidateInjective | data/actions/post.ts:96 | the probed candidates `base`, `base-1`, `base-2`, ... are pairwise different |
| Slug.Candidate | data/actions/post.ts:91-97 | the `n`-th slug the loop tries; stated by `Slug.CandidateInjective` and `Slug.ProbeFreeSlug` |
| Slug.FreeFrom | data/actions/post.ts:95-98 | against a finite set of taken slugs the probe reaches a free candidate |
| Slug.FirstFree | data/actions/post.ts:90-98 | the chosen slug is not taken |
| Slug.FirstFreeUnique | data/actions/post.ts:90-98 | the first free candidate is unique: the free one whose predecessors are all taken |
| Slug.SecondCreateGetsSuffix | data/actions/post.ts:90-98 | from an empty store the base is used; when only the base is taken, `base-1` is |
| Slug.ProbeFreeSlug | data/actions/post.ts:90-98 | the loop terminates and returns the first candidate absent from the store |
| Decimal.NatToString | data/actions/post.ts:96 | the counter's decimal form is non-empty, all digits, with no leading zero |
| Decimal.ParseNatToString | data/actions/post.ts:96 | reading the decimal form back gives the number |
| Decimal.NatToStringInjective | data/actions/post.ts:96 | different counters have different decimal forms |
| Markdown.Lines | data/actions/post.ts:24 | splitting at line feeds gives at least one line |
| Markdown.ChompDropsEndingCr | data/actions/post.ts:24 | a line loses at most one carriage return, and only one that ends it: the CR of a CRLF ending |
| Markdown.LinesHaveNoLineFeed | data/actions/post.ts:24 | no line holds a line feed |
| Markdown.UnlinesLines | data/actions/post.ts:24 | joining the lines with line feeds gives back the text |
| Markdown.LinesOfJoin | data/actions/post.ts:24 | the lines of `a + "\n" + b` are the lines of `a` followed by those of `b` |
| Markdown.H1AfterLines | data/actions/post.ts:23-38 | a depth-1 heading is still found when more lines come before it |
| Markdown.H1BeforeLines | data/actions/post.ts:23-38 | a depth-1 heading is still found when more lines follow it |
| Markdown.HashSpaceOpensH1 | data/actions/post.ts:23-38 | content that opens with `# ` has a depth-1 heading |
| Markdown.EmptyHasNoH1 | data/actions/post.ts:33-35 | empty content has no depth-1 heading |
| Markdown.SubheadingIsNotH1 | data/actions/post.ts:28 | `## Sub` is a heading of depth 2, not 1 |
| Markdown.HashtagIsNotH1 | data/actions/post.ts:27-28 | `#tag`, with no blank after the hash, is not a heading |
| Markdown.SetextIsH1 | data/actions/post.ts:27-28 | a paragraph line underlined with `===` is a depth-1 heading |
| Markdown.CrlfSetextIsH1 | data/actions/post.ts:24-29 | the setext heading `Title`, `===` with CRLF line endings and more text after it is a depth-1 heading |
| Markdown.HashCrlfOpensH1 | data/actions/post.ts:24-29 | a lone `#` ended by CRLF opens a depth-1 heading, whatever follows |
| Markdown.ThematicBreakIsNotH1 | data/actions/post.ts:24-29 | `***` is a thematic break, not paragraph text, so `***` over `===` holds no depth-1 heading |
| Markdown.HasH1 | data/actions/post.ts:23-38 | the `hasH1` flag the heading visit sets; stated by `Markdown.H1AfterLines`, `Markdown.H1BeforeLines`, `Markdown.HashSpaceOpensH1`, `Markdown.SetextIsH1`, `Markdown.CrlfSetextIsH1`, `Markdown.HashCrlfOpensH1`, `Markdown.EmptyHasNoH1`, `Markdown.SubheadingIsNotH1`, `Markdown.HashtagIsNotH1` and `Markdown.ThematicBreakIsNotH1` |
| Validation.RawFromFormFields | data/actions/post.ts:75-80 | a missing field reads as `""`, and `published` is true exactly when the checkbox value is `on` |
| Validation.TextField | data/actions/post.ts:76-79 | a text field read with the empty-string fallback; its meaning is stated by `Validation.RawFromFormFields` |
| Validation.RawFromForm | data/actions/post.ts:75-80 | the raw object built from the form; its fields are stated by `Validation.RawFromFormFields` |
| Validation.Validate | data/actions/post.ts:82-86 | `safeParse` and `issues[0].message`; stated by `Validation.ValidateAccepts` and `Validation.ValidateMessage` |
| Validation.PostSchema | data/actions/post.ts:40-53 | the schema's four rules in the order zod reports them; stated by `Validation.ValidateMessage` |
| Validation.Holds | data/actions/post.ts:40-53 | when each rule of the schema is met; stated by `Validation.FirstIssue` and `Validation.ValidateAccepts` |
| Validation.Message | data/actions/post.ts:33-52 | the message of each rule; stated by `Validation.ValidateMessage` |
| Validation.FirstIssue | data/actions/post.ts:82-86 | there is no issue exactly when every rule holds; otherwise the message is that of the first failing rule |
| Validation.IssueIs | data/actions/post.ts:82-86 | when rule `k` is the first to fail, its message is the one reported |
| Validation.ValidateAccepts | data/actions/post.ts:40-53 | a submission is accepted exactly when content, description and title are non-empty and the content has a depth-1 heading |
| Validation.ValidateMessage | data/actions/post.ts:40-53 | the message is the first failure in the order content required, content has an h1, description, title, with the exact texts |
| Validation.EmptyFormReportsContent | data/actions/post.ts:75-86 | an empty form reports "Content is required" |
| Validation.NoHeadingReportsHeading | data/actions/post.ts:33-35 | content without a heading reports the h1 message whatever the title and description hold, since the h1 rule comes before theirs |
| Validation.HeadingIsAccepted | data/actions/post.ts:40-53 | content `# Title\nbody` with the other fields filled is accepted |
| Collation.LexLeTotal | data/queries/post.ts:29-30 | the title order compares any two titles |
| Collation.LexLeReflexive | data/queries/post.ts:29-30 | every title is ordered before or equal to itself |
| Collation.LexLeTransitive | data/queries/post.ts:29-30 | the title order is transitive |
| Collation.LexLeAntisymmetric | data/queries/post.ts:29-30 | titles ordered both ways are equal |
| Posts.KeyedBySlugDistinct | data/actions/post.ts:101-103 | a table keyed by slug has no two keys holding the same row |
| Posts.KeyedByIdDistinct | data/actions/post-actions.ts:18-20 | a table keyed by id has no two keys holding the same row |
| Posts.Filter | data/queries/post.ts:33-36 | the filtered rows are exactly the matching rows, taken from the input |
| Posts.BeforeTotal | data/queries/post.ts:26-31 | every order compares any two posts |
| Posts.BeforeTransitive | data/queries/post.ts:26-31 | every order is transitive |
| Posts.Insert | data/queries/post.ts:33-36 | inserting into a sorted sequence keeps it sorted and adds exactly the one post |
| Posts.SortBy | data/queries/post.ts:33-36 | the result is sorted and a permutation of the input |
| Posts.Rows | data/queries/post.ts:33-36 | the table's rows, one per key, each row of the table exactly once |
| Posts.FindMany | data/queries/post.ts:33-36 | the result is sorted in the requested order and holds exactly the table's matching rows, each once |
| Posts.SortedUnique | data/queries/post.ts:26-31 | two duplicate-free sorted sequences with the same members and no ties are equal |
| Posts.TagsDistinct | data/queries/post.ts:57-68 | `post-<slug>` tags of different slugs differ, and none equals `posts` |
| PostQueries.WhereForSelects | data/queries/post.ts:17-24 | the where clause chosen for a filter matches exactly the posts the filter means: archived, published and live, drafts and live, or live |
| PostQueries.WhereFor | data/queries/post.ts:17-24 | the where clause of the filter chain; its meaning is stated by `PostQueries.WhereForSelects` |
| PostQueries.OrderFor | data/queries/post.ts:26-31 | the orderBy of the sort chain; its effect on the listing is stated by `PostQueries.GetPosts`, `PostQueries.ListingIsUnique` and `PostQueries.OldestReversesNewest` |
| PostQueries.GetPosts | data/queries/post.ts:10-38 | refusal exactly when the gate is closed; otherwise the filtered rows, once each, in the requested order |
| PostQueries.GetPostsRefusedBeforeReading | data/queries/post.ts:12-14 | a refused caller gets the same refusal whatever the table holds |
| PostQueries.GetPostsDefaults | data/queries/post.ts:10-38 | a missing filter reads as `all` and a missing sort as `newest` |
| PostQueries.PublishedAndDraftsPartitionAll | data/queries/post.ts:17-24 | published and drafts split the `all` listing, with no post in both |
| PostQueries.AllAndArchivedPartitionTable | data/queries/post.ts:17-24 | `all` and `archived` split the table, with no post in both |
| PostQueries.ListingIsUnique | data/queries/post.ts:26-36 | with distinct creation times, a listing by creation time is determined by the table |
| Posts.Reverse | data/queries/post.ts:26-31 | the rows in the opposite order: same length, mirrored positions, same multiset |
| Posts.ReverseNewestIsOldest | data/queries/post.ts:26-28 | reading a newest-first sequence backwards gives an oldest-first sequence |
| PostQueries.ReversedListing | data/queries/post.ts:26-36 | the reverse of a `newest` listing is an `oldest` listing of the same filter |
| PostQueries.OldestReversesNewest | data/queries/post.ts:26-28 | with distinct creation times the `oldest` listing is the `newest` listing reversed |
| PostQueries.GetPostBySlug | data/queries/post.ts:40-53 | refusal exactly when the gate is closed; not-found exactly when no row has the slug; otherwise the row with that slug |
| PostQueries.GetPublishedPosts | data/queries/post.ts:55-64 | tagged `posts`; exactly the published, unarchived rows, newest first, once each; no gate |
| PostQueries.PublicListIsPublishedList | data/queries/post.ts:55-64 | the public list is the management `published` listing in its default order |
| PostQueries.GetPublishedPostBySlug | data/queries/post.ts:66-78 | tagged `post-<slug>`; never refused; a found row has the slug and is published and unarchived |
| PostQueries.PublicLookupNotFound | data/queries/post.ts:71-77 | not-found exactly when the slug is missing, unpublished or archived |
| PostQueries.PublicLookupAgreesWithList | data/queries/post.ts:55-78 | the public lookup finds a post exactly when the public list holds it |
| PostActions.RefusedBeforeAnyCheck | data/actions/post.ts:70-182 | a refused caller gets `Unauthorized` from all four actions before any other check, and nothing changes |
| PostActions.CreateStep | data/actions/post.ts:70-108 | `createPost` as a step; its meaning is stated by `RefusedBeforeAnyCheck`, `RejectedSubmissionIsEchoed`, `CreateInsertsOneRow`, `CreatedSlugIsFirstFree` and `CreateIsCoherent` |
| PostActions.UpdateStep | data/actions/post.ts:110-143 | `updatePost` as a step; stated by `SeedPostIsProtected`, `UpdateChecksInOrder`, `UpdateReplacesFields` and `UpdateIsCoherent` |
| PostActions.DeleteStep | data/actions/post.ts:145-162 | `deletePost` as a step; stated by `SeedPostIsProtected`, `DeleteRemovesRow` and `DeleteIsCoherent` |
| PostActions.ToggleArchiveStep | data/actions/post.ts:164-182 | `toggleArchivePost` as a step; stated by `ToggleSetsFlag`, `ToggleIdempotent` and `ToggleArchiveIsCoherent` |
| PostActions.OnlySuccessChanges | data/actions/post.ts:70-182 | an action that does not succeed leaves the table and the tag log unchanged |
| PostActions.RejectedSubmissionIsEchoed | data/actions/post.ts:82-86 | a rejected create or update returns the first message and echoes the raw fields, and nothing changes |
| PostActions.EmptyFormIsRejected | data/actions/post.ts:75-86 | an empty form is rejected with "Content is required" and the echo of four empty or false fields |
| PostActions.CreateInsertsOneRow | data/actions/post.ts:88-105 | an accepted create inserts exactly one row, under a slug that was free, keeps every other row, and appends `posts` only |
| PostActions.NewRow | data/actions/post.ts:101-103 | the row `create` inserts; stated by `PostActions.CreateInsertsOneRow` and `PostActions.CreateThenRead` |
| PostActions.CreatedSlugIsFirstFree | data/actions/post.ts:90-98 | the new key is the first free candidate of the title's slug |
| PostActions.CreateThenRead | data/actions/post.ts:101-103 | after a create the management lookup of the new slug returns the submitted fields |
| PostActions.SameTitleTwiceFromEmpty | data/actions/post.ts:90-98 | two accepted creates with one title from an empty table take `base`, then `base-1` |
| PostActions.SameTitleTwice | data/actions/post.ts:90-98 | two posts titled "My Post" get "my-post" and "my-post-1" |
| PostActions.SeedPostIsProtected | data/actions/post.ts:14-21 | update and delete of a seed post return "Seed posts cannot be edited/deleted" and change nothing; toggling its archive flag succeeds |
| PostActions.SeedProtection | data/actions/post.ts:14-21 | `checkSeedPostProtection`; stated by `PostActions.SeedPostIsProtected` |
| PostActions.UpdateChecksInOrder | data/actions/post.ts:125-137 | update of a missing slug returns the validation failure when there is one, and otherwise throws record-not-found |
| PostActions.UpdateReplacesFields | data/actions/post.ts:131-140 | an accepted update replaces exactly title, description, content and published of that row, keeps the other modelled fields and every other row, and appends `posts` and `post-<slug>` |
| PostActions.DeleteRemovesRow | data/actions/post.ts:153-159 | a delete removes exactly that slug and appends `posts` and `post-<slug>` |
| PostActions.ToggleSetsFlag | data/actions/post.ts:172-179 | a toggle sets `archived` to the argument on that row only, or throws when the slug is missing |
| PostActions.ToggleIdempotent | data/actions/post.ts:172-176 | toggling twice with one argument leaves the table as toggling once |
| PostActions.StepsKeepSlugKeys | data/actions/post.ts:70-182 | every action keeps each row under its own slug |
| PostActions.UpdateIsCoherent | data/actions/post.ts:139-140 | after an update, every public read that could have changed has its tag in the appended tags |
| PostActions.DeleteIsCoherent | data/actions/post.ts:158-159 | after a delete, every public read that could have changed has its tag in the appended tags |
| PostActions.ToggleArchiveIsCoherent | data/actions/post.ts:178-179 | after a toggle, every public read that could have changed has its tag in the appended tags |
| PostActions.CreateIsCoherent | data/actions/post.ts:105 | a create invalidates the list and changes no other slug's read; the new slug's earlier read was not-found |
| PostActions.PostService.constructor | data/actions/post.ts:12 | the service starts with the given table, an empty log and seed protection on |
| PostActions.PostService.CreatePost | data/actions/post.ts:70-108 | the method's outcome and new state are those of the create step, and rows stay keyed by slug |
| PostActions.PostService.UpdatePost | data/actions/post.ts:110-143 | the method's outcome and new state are those of the update step |
| PostActions.PostService.DeletePost | data/actions/post.ts:145-162 | the method's outcome and new state are those of the delete step |
| PostActions.PostService.ToggleArchivePost | data/actions/post.ts:164-182 | the method's outcome and new state are those of the toggle step |
| LegacyPostActions.MissingFieldThrows | data/actions/post-actions.ts:13-15 | an empty title or content makes create and update throw the required-fields error, and nothing changes |
| LegacyPostActions.MissingRequired | data/actions/post-actions.ts:13 | the test that the title or the content is missing or empty; its effect is stated by `LegacyPostActions.MissingFieldThrows` |
| LegacyPostActions.CreateStep | data/actions/post-actions.ts:8-23 | the older `createPost` as a step; stated by `MissingFieldThrows` and `CreateInsertsOneRow` |
| LegacyPostActions.UpdateStep | data/actions/post-actions.ts:25-41 | the older `updatePost` as a step; stated by `MissingFieldThrows` and `UpdateReplacesFields` |
| LegacyPostActions.DeleteStep | data/actions/post-actions.ts:43-50 | the older `deletePost` as a step; stated by `DeleteRemovesRow` |
| LegacyPostActions.OnlyDoneChanges | data/actions/post-actions.ts:8-50 | an action that throws changes nothing |
| LegacyPostActions.CreateInsertsOneRow | data/actions/post-actions.ts:8-23 | a create inserts one row with the submitted title, content and `published == (value is 'on')`, and appends `posts` |
| LegacyPostActions.UpdateReplacesFields | data/actions/post-actions.ts:25-41 | an update replaces exactly title, content and published of that id, keeps the rest, and appends `posts` only; a missing id throws |
| LegacyPostActions.DeleteRemovesRow | data/actions/post-actions.ts:43-50 | with no check of any kind, delete removes exactly that id and appends `posts`; a missing id throws |
| LegacyPostActions.StepsKeepWellFormed | data/actions/post-actions.ts:8-50 | every action keeps rows under their ids with unique slugs |
| LegacyPostActions.LegacyPostService.constructor | data/actions/post-actions.ts:8-50 | the service starts with the given table and an empty log |
| LegacyPostActions.LegacyPostService.CreatePost | data/actions/post-actions.ts:8-23 | the method's outcome and new state are those of the create step |
| LegacyPostActions.LegacyPostService.UpdatePost | data/actions/post-actions.ts:25-41 | the method's outcome and new state are those of the update step |
| LegacyPostActions.LegacyPostService.DeletePost | data/actions/post-actions.ts:43-50 | the method's outcome and new state are those of the delete step |
| LegacyPostQueries.WhereForSelects | data/queries/post-queries.ts:14 | `published` selects published rows, `drafts` unpublished ones, anything else every row |
| LegacyPostQueries.WhereFor | data/queries/post-queries.ts:14 | the older where clause; its meaning is stated by `LegacyPostQueries.WhereForSelects` |
| LegacyPostQueries.ArchivedPlaysNoRole | data/queries/post-queries.ts:14 | the archive flag never changes whether a row is selected |
| LegacyPostQueries.GetPosts | data/queries/post-queries.ts:10-16 | newest first, exactly the selected rows, once each, with no gate |
| LegacyPostQueries.PublishedAndDraftsPartitionTable | data/queries/post-queries.ts:14 | published and drafts split the table, and no filter shows every row |
| LegacyPostQueries.GetPostBySlug | data/queries/post-queries.ts:18-27 | never refused; not-found exactly when no row has the slug; otherwise a row with it |
| LegacyPostQueries.GetPostBySlugIsTheRow | data/queries/post-queries.ts:18-27 | with unique slugs the lookup returns that one row |
| ReadingTime.WordCountIsRuns | lib/utils.ts:16-18 | the word count is the number of maximal runs of non-whitespace characters |
| ReadingTime.WordCount | lib/utils.ts:16-18 | `getWordCount`, the split-and-filter count; its meaning is stated by `ReadingTime.WordCountIsRuns` |
| ReadingTime.NoWordsInWhitespace | lib/utils.ts:16-18 | empty or whitespace-only content has no words |
| ReadingTime.LeadingWhitespaceAddsNothing | lib/utils.ts:16-18 | whitespace before the content adds no word |
| ReadingTime.TrailingWhitespaceAddsNothing | lib/utils.ts:16-18 | whitespace after the content adds no word |
| ReadingTime.WordCountAdditive | lib/utils.ts:16-18 | the count of `a + " " + b` is the count of `a` plus that of `b` |
| ReadingTime.ReadTime | lib/utils.ts:20-22 | the read time is at least one minute |
| ReadingTime.ReadTimeFor | lib/utils.ts:21 | `Math.max(1, Math.ceil(w / 200))` is at least one minute; bounded by `ReadingTime.ReadTimeBounds`, `ReadingTime.ReadTimeShortPosts` and `ReadingTime.ReadTimeMonotone` |
| ReadingTime.ReadTimeBounds | lib/utils.ts:20-22 | for `w > 0` words the read time `r` satisfies `200*(r-1) < w <= 200*r` |
| ReadingTime.ReadTimeShortPosts | app/blog/page.tsx:41-42 | up to 200 words read in one minute, by the formula the blog page repeats |
| ReadingTime.ReadTimeMonotone | lib/utils.ts:20-22 | more words never read faster |
| DashboardUrl.RemoveTabsAndNewlines | app/dashboard/_components/SortButton.tsx:31 | the URL parser's removal of tabs and newlines: none is left, every remaining character comes from the input, and text without them is unchanged |
| DashboardUrl.TrimEnd | app/dashboard/_components/SortButton.tsx:31 | the URL parser's trim of a link's end: a prefix of the input, not ending in a control or space, with only controls and spaces cut |
| DashboardUrl.TrimStart | app/dashboard/_components/SortButton.tsx:31 | the URL parser's trim of a link's start: a suffix of the input, not starting with a control or space, with only controls and spaces cut |
| DashboardUrl.RemoveTabsAndNewlinesJoin | app/dashboard/_components/SortButton.tsx:31 | removing tabs and newlines from a join removes them from each part |
| DashboardUrl.TrimEndJoin | app/dashboard/_components/SortButton.tsx:31 | trimming the end of a link whose head ends in a visible character trims only its tail |
| DashboardUrl.CleanHref | app/dashboard/_components/SortButton.tsx:31 | a built link, cleaned up, is the link of the filter without tabs and newlines and the sort also without trailing controls and spaces |
| DashboardUrl.ParseQueryOfHref | app/dashboard/_components/SortButton.tsx:31 | a cleaned-up link built from plain values splits into exactly those values |
| DashboardUrl.ReadKeepsPlain | app/dashboard/_components/SortButton.tsx:31 | a plain value stays plain when it is read back |
| DashboardUrl.ParseHrefRoundTrip | app/dashboard/_components/SortButton.tsx:31 | a dashboard link built from plain values reads back as the filter without tabs and newlines, and the sort also without its trailing controls and spaces |
| DashboardUrl.ParseHref | app/dashboard/_components/SortButton.tsx:19-21 | the parameters the next page reads from a link; stated by `DashboardUrl.ParseHrefRoundTrip` and `DashboardUrl.ParseHrefOnlyHrefs` |
| DashboardUrl.ReadFilterKeepsClean | app/dashboard/_components/SortButton.tsx:31 | a filter with no tab or newline reads back unchanged |
| DashboardUrl.ReadFilterIdempotent | app/dashboard/_components/SortButton.tsx:31 | a filter read back once reads back as itself |
| DashboardUrl.Href | app/dashboard/_components/SortButton.tsx:31 | the link template shared with PostTabs.tsx:21; stated by `DashboardUrl.ParseHrefRoundTrip` and `DashboardUrl.ParseHrefOnlyHrefs` |
| DashboardUrl.ParseHrefOnlyHrefs | app/dashboard/_components/PostTabs.tsx:21 | every link the reader accepts cleans up to a link built from the values it reads |
| DashboardUrl.ParseQueryOnlyHrefs | app/dashboard/_components/PostTabs.tsx:21 | every cleaned-up link the query split accepts is a link built from the values it reads |
| DashboardPostList.Catch | app/dashboard/_components/PostList.tsx:11-12 | the parameter when it is an option, the fallback otherwise; always an option when the fallback is one |
| DashboardPostList.CatchIdempotent | app/dashboard/_components/PostList.tsx:11-12 | parsing an already parsed value again gives the same value |
| DashboardPostList.ValidFilter | app/dashboard/_components/PostList.tsx:11 | the enum member named by the filter schema with fallback `all` |
| DashboardPostList.ValidSort | app/dashboard/_components/PostList.tsx:12 | the enum member named by the sort schema with fallback `newest` |
| DashboardPostList.FilterNormaliserRoundTrip | app/dashboard/_components/PostList.tsx:11 | the filter normaliser is the identity on the four options, and idempotent |
| DashboardPostList.UnknownFilterIsAll | app/dashboard/_components/PostList.tsx:20 | any other filter, absent included, becomes `all` |
| DashboardPostList.SortNormaliserRoundTrip | app/dashboard/_components/PostList.tsx:12 | the sort normaliser is the identity on the three options, and idempotent |
| DashboardPostList.UnknownSortIsNewest | app/dashboard/_components/PostList.tsx:21 | any other sort, absent included, becomes `newest` |
| DashboardPostList.EmptyMessagesDistinct | app/dashboard/_components/PostList.tsx:24-36 | each filter has its own empty-state message |
| DashboardPostList.EmptyMessage | app/dashboard/_components/PostList.tsx:29-35 | the empty-state ternary; stated by `DashboardPostList.EmptyMessagesDistinct` and `DashboardPostList.PostList` |
| DashboardPostList.PostList | app/dashboard/_components/PostList.tsx:18-40 | refused exactly when the gate is closed; the query always gets valid enum members; the empty state carries the filter's message; cards show the listing |
| DashboardPostList.EmptyStateIffNoneSelected | app/dashboard/_components/PostList.tsx:22-24 | the empty state shows exactly when no row passes the normalised filter |
| DashboardPostList.UnknownParamsShowDefaults | app/dashboard/_components/PostList.tsx:18-22 | unknown parameters show the same list as absent ones |
| DashboardPostList.LegacyValidFilter | app/posts/page.tsx:14 | the older page's ternary agrees with the three-option schema of app/posts/_components/PostList.tsx:8 |
| DashboardSortButton.FindIndex | app/dashboard/_components/SortButton.tsx:23-25 | the first option with the value, or -1 exactly when no option has it |
| DashboardSortButton.NextIndex | app/dashboard/_components/SortButton.tsx:26 | the next index wraps from the last option to the first |
| DashboardSortButton.NextSortOf | app/dashboard/_components/SortButton.tsx:23-27 | `nextSort` for a sort value; stated by `SortCycle`, `ThreeNextsReturn` and `UnknownSortBreaksButton` |
| DashboardSortButton.Render | app/dashboard/_components/SortButton.tsx:18-38 | a button exists exactly when the current sort is an option; its link keeps the filter and carries the next sort |
| DashboardSortButton.SortCycle | app/dashboard/_components/SortButton.tsx:10-27 | the next sort cycles newest, oldest, title, newest |
| DashboardSortButton.ThreeNextsReturn | app/dashboard/_components/SortButton.tsx:26 | three steps return to the starting sort |
| DashboardSortButton.AbsentSortIsNewest | app/dashboard/_components/SortButton.tsx:20 | with no sort the button shows Newest and links to oldest |
| DashboardSortButton.UnknownSortBreaksButton | app/dashboard/_components/SortButton.tsx:23-35 | an unknown sort gives next `newest`, but the label lookup throws, so no button renders |
| DashboardSortButton.ButtonAgreesWithList | app/dashboard/_components/SortButton.tsx:20-35 | a rendered button names the sort the list uses, and links to the list's next sort |
| DashboardPostTabs.TabValuesAreFilters | app/dashboard/_components/PostTabs.tsx:7-12 | the tab values are exactly all, published, drafts, archived, the list's filter options |
| DashboardPostTabs.AbsentFilterActivatesAll | app/dashboard/_components/PostTabs.tsx:17 | an absent filter makes `all` the active tab |
| DashboardPostTabs.ActiveTab | app/dashboard/_components/PostTabs.tsx:17 | `currentTab`; stated by `AbsentFilterActivatesAll` and `DashboardNavigation.UnknownTabValue` |
| DashboardPostTabs.ChangeTabHref | app/dashboard/_components/PostTabs.tsx:20-22 | the link `changeTab` pushes; stated by `DashboardNavigation.TabChangeKeepsSort` and `DashboardNavigation.TabAndSortCommute` |
| DashboardNavigation.TabChangeKeepsSort | app/dashboard/_components/PostTabs.tsx:18-22 | a tab change sets the filter to the chosen value and keeps the sort, `newest` when absent, both as read back: without tabs and newlines, the sort also without trailing controls and spaces |
| DashboardNavigation.AfterTab | app/dashboard/_components/PostTabs.tsx:20-22 | the parameters after `changeTab`; stated by `DashboardNavigation.TabChangeKeepsSort`, `DashboardNavigation.UnknownTabValue` and `DashboardNavigation.TabAndSortCommute` |
| DashboardNavigation.TabChangeDropsSortSpace | app/dashboard/_components/PostTabs.tsx:18-22 | a sort ending in a space comes back from a tab change without it |
| DashboardNavigation.TabChangeTrimsSort | app/dashboard/_components/PostTabs.tsx:18-22 | under the sort `oldest ` the list shows newest first; a tab change turns it into `oldest`, and the list shows oldest first |
| DashboardNavigation.LowerWordIsClean | app/dashboard/_components/PostTabs.tsx:7-12 | a word of small letters, as every tab value is, is plain and reads back unchanged |
| DashboardNavigation.ReadSortDropsSpace | app/dashboard/_components/PostTabs.tsx:21 | a trailing space is dropped from the sort that ends the link |
| DashboardNavigation.ReadFilterDropsTab | app/dashboard/_components/SortButton.tsx:31 | a trailing tab is dropped from the filter |
| DashboardNavigation.SortValuesArePlain | app/dashboard/_components/SortButton.tsx:10-14 | every sort value goes into a link unchanged and reads back as itself |
| DashboardNavigation.UnknownTabValue | app/dashboard/_components/PostTabs.tsx:20-22 | a value outside the enum reaches the URL unvalidated and becomes the active tab as read back; the list uses the read-back value, and shows all when that is not an option either |
| DashboardNavigation.SortClickKeepsFilter | app/dashboard/_components/SortButton.tsx:21-31 | a sort click keeps the filter, `all` when absent, as read back without tabs and newlines, and sets the next sort |
| DashboardNavigation.AfterSortClick | app/dashboard/_components/SortButton.tsx:29-36 | the parameters after following the button's link; stated by `DashboardNavigation.SortClickKeepsFilter`, `DashboardNavigation.SortClickAdvancesList` and `DashboardNavigation.ThreeClicksReturn` |
| DashboardNavigation.SortClickAdvancesList | app/dashboard/_components/SortButton.tsx:26-31 | after a click the button renders again and the list moves to the next sort, filtered by the read-back filter |
| DashboardNavigation.SortClickKeepsCleanFilter | app/dashboard/_components/SortButton.tsx:21-31 | a filter with no tab or newline keeps the list's filter across a click |
| DashboardNavigation.SortClickDropsFilterTab | app/dashboard/_components/SortButton.tsx:21-31 | a filter ending in a tab comes back from a click without it |
| DashboardNavigation.TabbedFilterChangesList | app/dashboard/_components/SortButton.tsx:21-31 | under `drafts` plus a tab the list shows all posts; one sort click leaves `drafts`, and the list shows the drafts |
| DashboardNavigation.ThreeClicksReturn | app/dashboard/_components/SortButton.tsx:26-31 | three clicks return to the starting sort, with the filter as read back |
| DashboardNavigation.TabAndSortCommute | app/dashboard/_components/PostTabs.tsx:20-22 | changing tab and sorting in either order reach the same parameters |

## Left out

- Markdown parsing: remark is a foreign library. `Markdown.HasH1` approximates a depth-1 heading as an ATX line (`# x`, up to three spaces of indent) or a setext underline (`===`) under a paragraph line that is not blank, indented code, an ATX heading or a thematic break. Lines end at LF, with a CR just before it dropped, so CRLF text reads as LF text. Code blocks, block quotes, lists, HTML blocks and lazy continuation lines are not modelled.
- Markdown.Lines: a bare CR, with no LF after it, does not end a line, although CommonMark ends lines there too. Browsers submit textarea line breaks as CRLF, so form content does not contain a bare CR.
- Markdown.HasH1: indentation counts spaces only. A leading tab is not read as four columns of indentation. A line indented four or more spaces always counts as indented code, although CommonMark lets it continue an open paragraph. So `"Title\n    more\n==="` is an h1 for remark but not for `HasH1`, and validation rejects it.
- zod internals: only the behaviour used is modelled. That is first-failure reporting in key order, `min(1)`, the custom h1 check, and `enum(...).catch(...)`.
- Time and timers: `slow()` delays are left out, and so are `refresh()` and `formatDate`. `cn` (class-name merging) is left out too.
- The React and Next.js UI is left out: pages, components, skeletons, optimistic updates and error boundaries. `router.push` is modelled only by the link it is given and the parameters that link reads back as.
- Query parsing: `DashboardUrl.ParseHref` cleans a link as the basic URL parser of the WHATWG URL Standard (section 4.4) does first: it trims leading and trailing C0 controls and spaces, then removes every tab, line feed and carriage return. It then reads only links of the shape both components build, and only values with no `&`, `#`, `%` or `+`. Percent-encoding and percent-decoding are not modelled. Other characters survive encoding and decoding, so they read back as they are.
- Concurrency: the slug loop checks and then inserts, and two concurrent creates can race. The model is sequential.
- Database-assigned values (`id`, `createdAt`, and the older variant's slug) are parameters. The older create requires a fresh id and a free slug, which the database's unique constraints would otherwise enforce.
- Timestamps: the post row has no `updatedAt`. The database bumps it on every update and every archive toggle, and the pages show "Updated" when it is later than `createdAt`. Neither is modelled. So "the rest of the row is kept" covers only the modelled fields.
- Defaults for new rows: the schema's defaults are not shown, so `archived` and `seed` are taken as false. The older create leaves the description empty.
- Lower-casing and collation: `toLowerCase` is modelled on ASCII letters only. The title order is lexicographic on code points, standing in for the database collation, which the code does not fix.
- Whitespace: `\s` is modelled with the full ECMAScript whitespace and line-terminator set.
- Cache freshness: the model keeps tags as an append-only log. It states which reads each action's tags cover, not when caches refresh. The `'max'` profile argument of `revalidateTag` is not modelled. `react`'s `cache` memoisation is not modelled either.
- PostQueries.GetPosts: the order among rows that tie on the sort key is left open. `ListingIsUnique` shows the listing is fixed when creation times differ.
- PostActions.CreateIsCoherent: a create does not invalidate `post-<slug>` for its new slug. The lemma states only that this slug's earlier public read was not-found. Whether a cached not-found would then be served stale is cache behaviour.
- DashboardSortButton.ButtonAgreesWithList: holds for parameters with one value per key, which is all that `DashboardUrl.Params` can hold. For a repeated key such as `?sort=oldest&sort=title`, the button's `searchParams.get('sort')` reads the first value, `oldest`. The list's `searchParams` gives it an array, which the sort schema's catch turns into `newest`. So the button would name Oldest over a list sorted newest first. Repeated keys are not modelled.
- The management and public queries are ghost functions over the enumerated rows, so the list result is not computed.
- prisma/seed.ts is not part of this model.
