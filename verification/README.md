# django-sage-blog query layer in Dafny

This project models the query layer of the django-sage-blog application. It
covers the following parts:

- the `PostQuerySet`, `TagQuerySet` and `CategoryQuerySet` methods;
- the search page's `get_queryset`, which runs heavy search first and applies
  the slug filters only when the query is blank;
- two string helpers of the import/export support:
  - the list of language-suffixed fields to exclude;
  - the traceback trimming of `DataProcessingError`.

Every operation is a pure function over in-memory rows. A queryset is the
sequence of rows it would yield. The ORM calls map onto sequence operations as
follows (module `QuerySets`):

| ORM call | sequence operation |
|---|---|
| `filter` / `exclude` | order-preserving selection (`Filter`, `ExcludePk`) |
| `order_by("-key")` | stable sort, greatest first (`SortDesc`) |
| `[:n]` | prefix (`Take`) |
| `distinct()` | keeps the first occurrence (`Distinct`) |
| filter across a many-valued relation, without `distinct` | one row per linked related row (`JoinRows`) |
| `annotate(Count(...))` after such a filter | one row per group, with the count of linked rows (`AnnotateCount`) |

The records (module `Records`) carry the fields the queries read:

- Post, Tag and Category each have an integer `pk`, a `slug`, a `title`, one
  publish flag and `createdAt`.
- A Post also has a `description`, its category row and a set of tag rows.

Time is counted in whole days, and "now" is a parameter. The querysets filter
on `is_active`, while the models declare `is_published`; one `published` flag
stands for both.

Some operations need the database:

- Search depends on PostgreSQL. The engine record (`PostQuerySet.Engine`)
  supplies four things:
  - the configured `ENGINE` path of the default database, as a string;
  - whether the database has PostgreSQL's full-text functions;
  - the full-text match, as a predicate;
  - the trigram similarity, as a function to `real`.

  The two PostgreSQL tests of the code differ, and the model keeps them
  apart:
  - Full-text search uses `to_tsvector`. A database without it fails a
    non-blank full-text or heavy search with `PostQuerySet.DatabaseError`,
    and the search page fails with it.
  - The trigram stage runs only when the `ENGINE` path contains the text
    `postgresql` (`PostQuerySet.NamesPostgresql`). A PostGIS backend has
    full-text search but a path without that text, so it never reaches the
    trigram stage.
  - The path is always the default database's, as in the code. The
    full-text flag describes the database that runs the query, which can be
    another alias.
- The rankings' `ValueError`s are `Err` values of a `Result`. The error
  messages are the source's own.

The search page reads its parameters in two ways. The `cat` and `tag` filters
are django-filter `CharFilter`s. Their form field strips surrounding
whitespace (as `str.strip()` does) and rejects a value holding a NUL
character. A value that strips to nothing or is rejected does not filter.
The `search` parameter is read raw: only the empty string counts as blank.

Where the documentation and the code disagree, the model follows the code:

- `filter_trend_tags` keeps tags with at least `min_count` posts in the
  window. The code uses `>=`; the doc-comment says "more than".
- `heavy_search` runs its full-text stage whatever the database. Only the
  trigram stage checks the engine path. So on a database without full-text
  functions every non-blank search fails in the first stage, and the
  substring stage is never reached.
- `CategoryQuerySet.annotate_total_posts` joins on published posts before
  counting. A category without published posts is therefore absent, not
  counted as zero.
- `filter_recent_posts` is modelled with its `obj` parameter, as the queryset
  defines it. The manager wrapper is not modelled.

## Model

| member | source | states |
|---|---|---|
| `QuerySets.Filter` | sage_blog/repository/queryset/post.py:37 | each row is kept, with its multiplicity, exactly when it satisfies the condition; the result is a subsequence of the input |
| `QuerySets.SortDesc` | sage_blog/repository/queryset/tag.py:159 | the result is a permutation of the input with keys non-increasing |
| `QuerySets.Take` | sage_blog/repository/queryset/post.py:49 | a slice `[:n]` is the first min(n, length) rows, a sub-multiset of the input |
| `QuerySets.FilterAll` | sage_blog/repository/queryset/tag.py:133-138 | a filter that every row passes returns the queryset unchanged |
| `QuerySets.TakeOfSortedIsTop` | sage_blog/repository/queryset/category.py:64-69 | the first n rows of a sorted queryset are its n greatest: any row left out has a key no greater than every row taken |
| `QuerySets.Distinct` | sage_blog/repository/queryset/tag.py:144 | same set of rows, none repeated, never longer than the input |
| `QuerySets.Matches` | sage_blog/repository/queryset/tag.py:87 | the count is zero exactly when no related row is linked, and never exceeds the related table |
| `QuerySets.JoinRows` | sage_blog/repository/queryset/tag.py:151 | a row occurs (its multiplicity) × (its number of linked rows) times; a row is present exactly when it has a linked row |
| `QuerySets.AnnotateCount` | sage_blog/repository/queryset/tag.py:113-115 | each row of the join appears once, with its number of linked rows |
| `QuerySets.ExcludeObject` | sage_blog/repository/queryset/post.py:46-47 | exactly the rows whose pk differs from the object's, with their multiplicity and in input order; with no object, the input itself |
| `QuerySets.RecentFirst` | sage_blog/repository/queryset/post.py:44-49 | newest first, length min(n, rows left after the exclusion), a sub-multiset of those rows, and every row left out is no newer than any row returned |
| `QuerySets.ExcludePkKeepsOrder` | sage_blog/repository/queryset/tag.py:33-34 | excluding by pk keeps the order the rows had |
| `PostQuerySet.FilterActives` | sage_blog/repository/queryset/post.py:33-37 | exactly the posts whose flag equals the argument, with their multiplicity, in input order |
| `PostQuerySet.FilterActivesPartition` | sage_blog/repository/queryset/post.py:33-37 | the published and unpublished results are disjoint and together are a permutation of the input |
| `PostQuerySet.FilterRecentPosts` | sage_blog/repository/queryset/post.py:39-49 | newest first, never `obj`, a sub-multiset of the input without `obj` of length min(n, its length), and no post left out is newer than a post returned |
| `PostQuerySet.FilterByCategory` | sage_blog/repository/queryset/post.py:51-55 | exactly the posts of a category with that slug, with their multiplicity and in input order; an unknown slug gives an empty result |
| `PostQuerySet.FilterByTag` | sage_blog/repository/queryset/post.py:57-61 | exactly the posts having a tag with that slug, with their multiplicity and in input order; an unknown slug gives an empty result |
| `PostQuerySet.FilterInDateRange` | sage_blog/repository/queryset/post.py:63-67 | exactly the posts created in the range, both ends inclusive, with their multiplicity and in input order; an inverted range gives nothing |
| `PostQuerySet.FilterNewPosts` | sage_blog/repository/queryset/post.py:69-75 | exactly the posts created at most `days` days before now, with their multiplicity and in input order |
| `PostQuerySet.AnnotateTotalTags` | sage_blog/repository/queryset/post.py:77-81 | the rows are unchanged, each with the number of its tags |
| `PostQuerySet.TotalTagsCountsJoinRows` | sage_blog/repository/queryset/post.py:77-81 | for a tag table with unique keys holding every tag of the posts, each post's count is its number of rows in the post-tag join |
| `PostQuerySet.PostTagsCountJoinRows` | sage_blog/repository/queryset/post.py:81 | one post's number of tags equals the number of tag-table rows joined with it |
| `PostQuerySet.JoinedExactlyWithOwnTags` | sage_blog/repository/queryset/post.py:81 | with unique keys, a tag row joins with the post exactly when it is one of the post's tags |
| `PostQuerySet.AnnotatePublishedSince` | sage_blog/repository/queryset/post.py:83-92 | the rows are unchanged; creation day plus the annotation is now |
| `PostQuerySet.AnnotateIsRecent` | sage_blog/repository/queryset/post.py:94-106 | the rows are unchanged; the flag is true exactly for posts created within the last seven days |
| `PostQuerySet.PublishedSinceAgreesWithIsRecent` | sage_blog/repository/queryset/post.py:83-106 | row by row, a post is flagged recent exactly when its days since publication are at most seven |
| `PostQuerySet.IsRecentAgreesWithNewPosts` | sage_blog/repository/queryset/post.py:69-106 | the posts flagged recent are exactly `filter_new_posts(7)`, in the same order |
| `PostQuerySet.NextInCategory` | sage_blog/repository/queryset/post.py:122-126 | the smallest-pk post of the same category with a larger pk, or none exactly when there is no such post |
| `PostQuerySet.PrevInCategory` | sage_blog/repository/queryset/post.py:129-133 | the largest-pk post of the same category with a smaller pk, or none exactly when there is no such post |
| `PostQuerySet.AnnotateNextAndPrev` | sage_blog/repository/queryset/post.py:108-139 | the rows are unchanged; the next and previous slugs belong to the nearest posts by pk in the same category, and are NULL when there is none |
| `PostQuerySet.JoinCategory` | sage_blog/repository/queryset/post.py:212-216 | joining the category leaves the rows and their order unchanged |
| `PostQuerySet.JoinTags` | sage_blog/repository/queryset/post.py:218-222 | prefetching tags leaves the rows and their order unchanged |
| `PostQuerySet.FullTextSearch` | sage_blog/repository/queryset/post.py:141-151 | a blank query returns the input; otherwise, with full-text functions, exactly the full-text hits with their multiplicity as a subsequence of the input, and without them the missing-`to_tsvector` error |
| `PostQuerySet.SubstringSearch` | sage_blog/repository/queryset/post.py:153-164 | a blank query returns the input; otherwise exactly the posts whose title or description contains the query, ignoring case, with their multiplicity; always a subsequence |
| `PostQuerySet.TrigramSimilaritySearch` | sage_blog/repository/queryset/post.py:166-182 | nothing for a blank query or when the engine path does not contain `postgresql`; otherwise exactly the posts with similarity above 0.1, with their multiplicity (a permutation of the hits), most similar first |
| `PostQuerySet.HeavySearch` | sage_blog/repository/queryset/post.py:184-210 | a blank query returns the input; a non-blank one fails without full-text functions; with them the first stage with a hit answers with exactly that stage's hits (the trigram stage's with their multiplicity), the trigram stage only when the engine path names `postgresql`, and the result is empty exactly when no stage hits |
| `PostQuerySet.NoTrigramStageUnlessNamedPostgresql` | sage_blog/repository/queryset/post.py:204-210 | with full-text functions but an engine path without `postgresql`, the search succeeds and is empty exactly when neither full-text nor substring search hits |
| `PostQuerySet.HeavySearchIsFirstNonEmptyStage` | sage_blog/repository/queryset/post.py:194-210 | the result is one stage's own result, never a union of stages, and a failing full-text stage fails the search |
| `TagQuerySet.LatestPostDate` | sage_blog/repository/queryset/tag.py:26 | the newest creation day among the tag's posts, NULL exactly when it has none |
| `TagQuerySet.ByLatestPost` | sage_blog/repository/queryset/tag.py:25-28 | every tag kept (a permutation), ordered by latest post, tags without posts last |
| `TagQuerySet.FilterRecentTags` | sage_blog/repository/queryset/tag.py:14-39 | see the list after this table |
| `TagQuerySet.RecentTagsLimitIsPrefix` | sage_blog/repository/queryset/tag.py:36-37 | the limited result is the first `limit` tags of the unlimited one |
| `TagQuerySet.FilterTrendTags` | sage_blog/repository/queryset/tag.py:41-102 | see the list after this table |
| `TagQuerySet.TrendTagsLimitIsPrefix` | sage_blog/repository/queryset/tag.py:99-100 | the limited result is the first `limit` tags of the unlimited one |
| `TagQuerySet.FilterPublished` | sage_blog/repository/queryset/tag.py:117-122 | exactly the tags whose flag equals the argument, in order |
| `TagQuerySet.FilterPublishedPosts` | sage_blog/repository/queryset/tag.py:124-131 | published tags only, whatever the argument; one row per post whose flag equals the argument |
| `TagQuerySet.AnnotateTotalPosts` | sage_blog/repository/queryset/tag.py:104-115 | each published tag with a published post, once, with its number of published posts (at least 1); no other tags |
| `TagQuerySet.Search` | sage_blog/repository/queryset/tag.py:133-138 | exactly the tags whose title contains the term, ignoring case, with their multiplicity and in input order; an empty term keeps every tag |
| `TagQuerySet.FilterByPostsCategory` | sage_blog/repository/queryset/tag.py:140-145 | each tag with a post in a category of that title, once |
| `TagQuerySet.ExcludeUnpublishedPosts` | sage_blog/repository/queryset/tag.py:147-152 | one row per published post of the tag; a tag is present exactly when it has a published post |
| `TagQuerySet.SortByPopularity` | sage_blog/repository/queryset/tag.py:154-160 | a permutation of the tags, post count non-increasing, so tags without posts come last |
| `TagQuerySet.FilterByPostDateRange` | sage_blog/repository/queryset/tag.py:162-166 | each tag with a post created in the closed range, once; an inverted range gives nothing |
| `CategoryQuerySet.AnnotateTotalPosts` | sage_blog/repository/queryset/category.py:9-20 | each published category with a published post, once, with its number of published posts (at least 1); empty categories are absent |
| `CategoryQuerySet.GetActives` | sage_blog/repository/queryset/category.py:22-27 | exactly the categories whose flag equals the argument, in input order |
| `CategoryQuerySet.FilterActivePosts` | sage_blog/repository/queryset/category.py:29-36 | the category's own flag is always required; one row per post whose flag equals the argument, with no distinct |
| `CategoryQuerySet.JoinPosts` | sage_blog/repository/queryset/category.py:38-43 | prefetching posts leaves the rows and their order unchanged |
| `CategoryQuerySet.ExcludeInactivePosts` | sage_blog/repository/queryset/category.py:45-50 | a category is kept, once per published post, exactly when it has a published post, whatever its own flag |
| `CategoryQuerySet.FilterRecentCategories` | sage_blog/repository/queryset/category.py:52-69 | newest first, never `obj`, a sub-multiset of the input without `obj` of length min(n, its length), and no category left out is newer than one returned |
| `SearchView.SlugValue` | sage_blog/filters/post.py:18-19 | a filter value is the parameter stripped of surrounding whitespace; a missing, blank, whitespace-only or NUL-holding value gives no filter |
| `SearchView.PostFilter` | sage_blog/filters/post.py:18-19 | the input restricted, in order and with multiplicity, to the posts whose category slug is the stripped `cat` and which have a tag with the stripped `tag` slug; a value that cleans to nothing does not filter, and with neither value the input is returned |
| `SearchView.PaddedSlugFiltersAsBare` | sage_blog/filters/post.py:18-19 | a whitespace-padded slug filters exactly like the bare slug, and a whitespace-only value like no value |
| `SearchView.GetQueryset` | sage_blog/views/mixins/search.py:11-21 | a non-empty raw `search` gives exactly heavy search, its error included, and ignores `cat`/`tag`; an empty or missing one gives exactly `PostFilter` of the input |
| `ExcludeFields.OtherCodes` | sage_blog/utils/import_export/exclude_fields.py:16-17 | exactly the configured codes other than the default |
| `ExcludeFields.LanguageSpecificFields` | sage_blog/utils/import_export/exclude_fields.py:16-21 | length is (number of non-default language entries) × (number of base fields) |
| `ExcludeFields.LanguageSpecificFieldsByCode` | sage_blog/utils/import_export/exclude_fields.py:16-19 | the output runs language by language in the outer loop and field by field in the inner loop |
| `ExcludeFields.LanguageSpecificFieldsMembers` | sage_blog/utils/import_export/exclude_fields.py:16-19 | a name is present exactly when it is `field_code` for a base field and a non-default configured code |
| `ExcludeFields.LanguageSpecificFieldsEmpty` | sage_blog/utils/import_export/exclude_fields.py:14-21 | no base fields, or only the default language, gives an empty tuple |
| `Text.Contains` | sage_blog/repository/queryset/post.py:161-162 | true exactly when the pattern occurs somewhere in the text |
| `Text.Strip` | sage_blog/filters/post.py:18-19 | the result is the middle of the input, with only whitespace cut at either end, and it neither begins nor ends with whitespace |
| `Text.StripPadded` | sage_blog/filters/post.py:18-19 | stripping any whitespace padding off a core with no outer whitespace gives back the core |
| `Text.RPartitionTail` | sage_blog/utils/import_export/errors.py:24 | the text after the last occurrence of the separator, or the whole text when there is none |
| `ImportErrors.TrimTraceback` | sage_blog/utils/import_export/errors.py:24 | None or empty becomes "No traceback available"; otherwise the text after the last `DETAIL:`, or all of it when there is no `DETAIL:` |
| `ImportErrors.NewDataProcessingError` | sage_blog/utils/import_export/errors.py:22-33 | the message is always the generic text, the traceback is trimmed, the row is emptied and the number is kept |
| `ImportErrors.TrailingDetailStoresEmpty` | sage_blog/utils/import_export/errors.py:24 | a traceback ending in `DETAIL:` is stored as the empty string, not the fixed text |

`TagQuerySet.FilterRecentTags` states the following:

- A negative `days_ago` raises, and so does a non-positive `limit`. Both
  checks come before any query, and a valid call never raises.
- With `days_ago` 0:
  - with no limit, every tag except `obj` is returned;
  - the order is by latest post;
  - with no limit and no `obj`, the result is a permutation of the input.
- With `days_ago` > 0:
  - every tag returned has a post in the window;
  - with no limit, the result is exactly the tags with a post in the window,
    except `obj`;
  - each tag appears once.
- `obj` is never returned.
- The result has at most `limit` tags. With a limit, it is the first
  `limit` tags of the unlimited result (`TagQuerySet.RecentTagsLimitIsPrefix`).

`TagQuerySet.FilterTrendTags` states the following:

- A negative `days_ago`, a non-positive `min_count` and a non-positive
  `limit` each raise, checked in that order. A valid call never raises.
- Every tag returned has at least `min_count` posts in the window.
- With no limit, the result is exactly the tags with at least `min_count`
  posts in the window, with their multiplicity.
- With a limit, the result has at most `limit` tags. It is the first `limit`
  tags of the unlimited result (`TagQuerySet.TrendTagsLimitIsPrefix`).
- With `days_ago` 0:
  - the tags are ordered by post count, non-increasing;
  - no qualifying tag left out has more posts than a returned tag.

## Left out

- Laziness of the ORM, SQL generation and query counts. `select_related` and
  `prefetch_related` are the identity on rows.
- `isinstance` checks in the rankings. Arguments are typed integers here, so
  only the sign checks remain.
- The rankings read "now" from the wall clock; it is a parameter instead.
- Sub-day time is not modelled. `annotate_published_since` yields a whole
  number of days, not a duration.
- PostgreSQL full-text matching and pg_trgm similarity are parameters of the
  engine record; their scoring is not modelled.
- The trigram threshold 0.1 and the similarity sum are exact reals, not
  floating point.
- `icontains` folds ASCII case only. Unicode case folding is not modelled.
- NULL ordering in `filter_recent_tags(0)`: tags without posts are placed last,
  as SQLite and MySQL order NULLs for a descending sort. PostgreSQL would
  place them first.
- Negative `num_posts` and `num_categories` are not modelled (they are `nat`),
  because Django refuses negative slices.
- PostQuerySet.FilterByTag: the model yields each post once. SQL would repeat a
  post that has two tags with the same slug; tag slugs are unique, so this does
  not happen.
- Managers under `repository/managers` are not modelled. They forward to the
  querysets (the post manager drops `obj` from `filter_recent_posts`).
- `views/mixins/context.py` is not modelled. Its counts depend on how Django
  reuses joins when annotations are stacked.
- Post fields the queries never read are not part of this model: summary,
  author, published date, reading time (it uses an external library), SEO
  fields, FAQs.
- The database error is modelled by the name of the missing function only.
  The driver's exception class and message are not modelled.
- The trigram stage assumes the `pg_trgm` extension is installed wherever
  the engine path names `postgresql`. Without it, the source would raise
  there.
- `max_length` and other validators of the filter form: `PostFilter` declares
  none besides those of a plain `CharField`.
- Admin classes, filters in the admin, translation registration,
  import/export resources and widgets are declarative configuration.
- Not part of this model:
  - the data generator and its management command (randomness, bulk I/O);
  - `settings/check.py` (database cursor queries);
  - logging in `DataProcessingError`;
  - the base `results.Error` constructor.
