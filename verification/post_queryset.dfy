/**
 * `PostQuerySet`: the post queries of the blog — visibility, slug and date
 * filters, the "most recent" listing, per-post annotations and the
 * three-stage search with first-match-wins fallback.
 */
module PostQuerySet {
  import opened Wrappers
  import opened Text
  import opened Records
  import opened QuerySets

  /** The window, in days, of the `is_recent` annotation. */
  const RecentWindowDays := 7

  /** Trigram similarity a post must exceed to be a trigram hit. */
  const TrigramThreshold: real := 0.1

  /**
   * The database search runs on. Two different conditions are checked: the
   * trigram stage checks the configured `ENGINE` path of the default
   * database for the text `postgresql`, while the full-text stage simply
   * fails when the database lacks `to_tsvector`. The full-text match and the
   * trigram similarity are computed by PostgreSQL; here they are given.
   */
  datatype Engine = Engine(
    /** `settings.DATABASES["default"]["ENGINE"]` */
    engine: string,
    /** the database has PostgreSQL's full-text functions (PostGIS included) */
    hasFullText: bool,
    /** `to_tsvector(document) @@ plainto_tsquery(query)` */
    fullTextMatch: (string, string) -> bool,
    /** `similarity(text, query)` of the pg_trgm extension */
    similarity: (string, string) -> real)

  const PostgresqlMarker := "postgresql"

  /** `"postgresql" in settings.DATABASES["default"]["ENGINE"]`, the trigram stage's gate. */
  predicate NamesPostgresql(e: Engine) {
    Contains(e.engine, PostgresqlMarker)
  }

  // ---------------------------------------------------------------- filters

  /** `filter_actives`: the posts whose publish flag is `isActive`. */
  function FilterActives(qs: seq<Post>, isActive: bool): (r: seq<Post>)
    ensures forall p :: p in r <==> p in qs && p.published == isActive
    ensures forall p :: multiset(r)[p] == if p.published == isActive then multiset(qs)[p] else 0
    ensures IsSubsequence(r, qs)
  {
    Filter(qs, (p: Post) => p.published == isActive)
  }

  /** The published and the unpublished posts split the queryset in two disjoint parts. */
  lemma FilterActivesPartition(qs: seq<Post>)
    ensures multiset(FilterActives(qs, true)) + multiset(FilterActives(qs, false)) == multiset(qs)
    ensures multiset(FilterActives(qs, true)) !! multiset(FilterActives(qs, false))
    ensures |FilterActives(qs, true)| + |FilterActives(qs, false)| == |qs|
  {
    var a, b := FilterActives(qs, true), FilterActives(qs, false);
    assert forall p :: (multiset(a) + multiset(b))[p] == multiset(qs)[p];
    assert multiset(a) + multiset(b) == multiset(qs);
    assert |multiset(a) + multiset(b)| == |multiset(qs)|;
  }

  /**
   * `filter_recent_posts(num_posts, obj)`: the `numPosts` most recently
   * created posts, newest first, leaving out `obj`.
   */
  function FilterRecentPosts(qs: seq<Post>, numPosts: nat, obj: Option<Post>): (r: seq<Post>)
    ensures forall i, j :: 0 <= i < j < |r| ==> r[i].createdAt >= r[j].createdAt
    ensures forall p :: p in r ==> p in qs
    ensures obj.Some? ==> forall p :: p in r ==> p.pk != obj.value.pk
    ensures |r| == Min(numPosts, |ExcludeObject(qs, PostPk, obj)|)
    ensures multiset(r) <= multiset(ExcludeObject(qs, PostPk, obj))
    ensures forall p, i :: p in ExcludeObject(qs, PostPk, obj) && p !in r && 0 <= i < |r| ==>
              p.createdAt <= r[i].createdAt
  {
    var excluded := if obj.Some? then Some(obj.value.pk) else None;
    var r := RecentFirst(qs, PostCreated, PostPk, excluded, numPosts);
    RecentPostsFacts(qs, numPosts, obj, excluded, r);
    r
  }

  /**
   * `FilterRecentPosts`'s contract, restated for the `RecentFirst` call its
   * body makes: specialising the generic keys to the post fields is proved
   * here, apart from the function, to keep each proof obligation small.
   */
  lemma RecentPostsFacts(qs: seq<Post>, numPosts: nat, obj: Option<Post>, excluded: Option<int>, r: seq<Post>)
    requires excluded == if obj.Some? then Some(obj.value.pk) else None
    requires r == RecentFirst(qs, PostCreated, PostPk, excluded, numPosts)
    ensures forall i, j :: 0 <= i < j < |r| ==> r[i].createdAt >= r[j].createdAt
    ensures forall p :: p in r ==> p in qs
    ensures obj.Some? ==> forall p :: p in r ==> p.pk != obj.value.pk
    ensures |r| == Min(numPosts, |ExcludeObject(qs, PostPk, obj)|)
    ensures multiset(r) <= multiset(ExcludeObject(qs, PostPk, obj))
    ensures forall p, i :: p in ExcludeObject(qs, PostPk, obj) && p !in r && 0 <= i < |r| ==>
              p.createdAt <= r[i].createdAt
  {
    assert ExcludeObject(qs, PostPk, obj) == ExcludePk(qs, PostPk, excluded);
    forall i, j | 0 <= i < j < |r| ensures r[i].createdAt >= r[j].createdAt {
      assert PostCreated(r[i]) >= PostCreated(r[j]);
    }
    forall p | p in r ensures p in qs && (obj.Some? ==> p.pk != obj.value.pk) {
      assert excluded.Some? ==> PostPk(p) != excluded.value;
    }
    forall p, i | p in ExcludeObject(qs, PostPk, obj) && p !in r && 0 <= i < |r|
      ensures p.createdAt <= r[i].createdAt
    {
      assert PostCreated(p) <= PostCreated(r[i]);
    }
  }

  /** `filter_by_category`: the posts whose category has slug `categorySlug`. */
  function FilterByCategory(qs: seq<Post>, categorySlug: string): (r: seq<Post>)
    ensures forall p :: p in r <==> p in qs && p.category.slug == categorySlug
    ensures forall p :: multiset(r)[p] == if p.category.slug == categorySlug then multiset(qs)[p] else 0
    ensures r == [] <==> forall p :: p in qs ==> p.category.slug != categorySlug
    ensures IsSubsequence(r, qs)
  {
    Filter(qs, (p: Post) => p.category.slug == categorySlug)
  }

  /** The post has a tag with slug `slug`. */
  predicate TaggedWith(p: Post, slug: string) {
    exists t :: t in p.tags && t.slug == slug
  }

  /** `filter_by_tag`: the posts having a tag with slug `tagSlug`. */
  function FilterByTag(qs: seq<Post>, tagSlug: string): (r: seq<Post>)
    ensures forall p :: p in r <==> p in qs && TaggedWith(p, tagSlug)
    ensures forall p :: multiset(r)[p] == if TaggedWith(p, tagSlug) then multiset(qs)[p] else 0
    ensures r == [] <==> forall p :: p in qs ==> !TaggedWith(p, tagSlug)
    ensures IsSubsequence(r, qs)
  {
    Filter(qs, (p: Post) => TaggedWith(p, tagSlug))
  }

  /** `filter_in_date_range`: `created_at__range`, both ends inclusive. */
  function FilterInDateRange(qs: seq<Post>, startDate: int, endDate: int): (r: seq<Post>)
    ensures forall p :: p in r <==> p in qs && startDate <= p.createdAt <= endDate
    ensures forall p :: multiset(r)[p] == if startDate <= p.createdAt <= endDate then multiset(qs)[p] else 0
    ensures startDate > endDate ==> r == []
    ensures IsSubsequence(r, qs)
  {
    Filter(qs, (p: Post) => startDate <= p.createdAt <= endDate)
  }

  /** `filter_new_posts`: the posts created at most `days` days before `now`. */
  function FilterNewPosts(qs: seq<Post>, now: int, days: int): (r: seq<Post>)
    ensures forall p :: p in r <==> p in qs && p.createdAt >= now - days
    ensures forall p :: multiset(r)[p] == if p.createdAt >= now - days then multiset(qs)[p] else 0
    ensures IsSubsequence(r, qs)
  {
    Filter(qs, (p: Post) => p.createdAt >= now - days)
  }

  // ------------------------------------------------------------ annotations

  /** `annotate_total_tags`: every post with the number of its tags. */
  function AnnotateTotalTags(qs: seq<Post>): (r: seq<Counted<Post>>)
    ensures Rows(r) == qs
    ensures forall i :: 0 <= i < |r| ==> r[i].total == |qs[i].tags|
  {
    seq(|qs|, i requires 0 <= i < |qs| => Counted(qs[i], |qs[i].tags|))
  }

  /** The join `annotate_total_tags` counts over: the tag row is one of the post's tags. */
  function PostTagLink(p: Post, t: Tag): bool {
    HasTag(p, t)
  }

  /** A tag table: no two rows share a primary key. */
  predicate UniquePks(table: seq<Tag>) {
    forall i, j :: 0 <= i < j < |table| ==> table[i].pk != table[j].pk
  }

  /** Counting the rows of a table the post is joined with counts the post's tags found in it. */
  lemma {:induction false} MatchesTagsInTable(p: Post, table: seq<Tag>)
    requires UniquePks(table)
    requires forall t :: t in table ==> (HasTag(p, t) <==> t in p.tags)
    ensures Matches(p, table, PostTagLink) == |set t | t in table && t in p.tags|
  {
    if |table| > 0 {
      UniquePksTail(table);
      MatchesTagsInTable(p, table[1..]);
      FoundTagsStep(table, p.tags);
    }
  }

  lemma UniquePksTail(table: seq<Tag>)
    requires UniquePks(table) && |table| > 0
    ensures UniquePks(table[1..]) && table[0] !in table[1..]
  {
    var rest := table[1..];
    forall i, j | 0 <= i < j < |rest| ensures rest[i].pk != rest[j].pk {
      assert rest[i] == table[i + 1] && rest[j] == table[j + 1];
    }
  }

  /** The first row adds one to the tags found exactly when it is one of them. */
  lemma FoundTagsStep(table: seq<Tag>, tags: set<Tag>)
    requires |table| > 0 && table[0] !in table[1..]
    ensures |set t | t in table && t in tags|
         == |set t | t in table[1..] && t in tags| + (if table[0] in tags then 1 else 0)
  {
    var before := set t | t in table[1..] && t in tags;
    var after := set t | t in table && t in tags;
    assert forall t :: t in table <==> t == table[0] || t in table[1..];
    if table[0] in tags {
      assert after == before + {table[0]};
    } else {
      assert after == before;
    }
  }

  /**
   * `Count("tags")` is the number of rows of the post-tag join: for a tag
   * table with unique keys that holds every tag of the posts, each post's
   * total is the number of table rows it is joined with.
   */
  lemma TotalTagsCountsJoinRows(qs: seq<Post>, table: seq<Tag>)
    requires UniquePks(table)
    requires forall p :: p in qs ==> forall t :: t in p.tags ==> t in table
    ensures forall i :: 0 <= i < |qs| ==> AnnotateTotalTags(qs)[i].total == Matches(qs[i], table, PostTagLink)
  {
    forall i | 0 <= i < |qs| ensures AnnotateTotalTags(qs)[i].total == Matches(qs[i], table, PostTagLink) {
      PostTagsCountJoinRows(qs[i], table);
    }
  }

  lemma PostTagsCountJoinRows(p: Post, table: seq<Tag>)
    requires UniquePks(table)
    requires forall t :: t in p.tags ==> t in table
    ensures |p.tags| == Matches(p, table, PostTagLink)
  {
    JoinedExactlyWithOwnTags(p, table);
    MatchesTagsInTable(p, table);
    FoundTagsAreAll(table, p.tags);
  }

  lemma FoundTagsAreAll(table: seq<Tag>, tags: set<Tag>)
    requires forall t :: t in tags ==> t in table
    ensures (set t | t in table && t in tags) == tags
  {
  }

  /** With unique keys, a table row is joined with the post exactly when it is one of the post's tags. */
  lemma JoinedExactlyWithOwnTags(p: Post, table: seq<Tag>)
    requires UniquePks(table)
    requires forall t :: t in p.tags ==> t in table
    ensures forall t :: t in table ==> (HasTag(p, t) <==> t in p.tags)
  {
    forall t | t in table && HasTag(p, t) ensures t in p.tags {
      var u :| u in p.tags && u.pk == t.pk;
      var j :| 0 <= j < |table| && table[j] == u;
      var k :| 0 <= k < |table| && table[k] == t;
      assert j == k;
    }
  }

  /** A post annotated with `days_since_published`. */
  datatype Aged = Aged(post: Post, daysSincePublished: int)

  /** `annotate_published_since`: days from creation to `now` (the code measures from `created_at`). */
  function AnnotatePublishedSince(qs: seq<Post>, now: int): (r: seq<Aged>)
    ensures |r| == |qs|
    ensures forall i :: 0 <= i < |r| ==> r[i].post == qs[i] && r[i].post.createdAt + r[i].daysSincePublished == now
  {
    seq(|qs|, i requires 0 <= i < |qs| => Aged(qs[i], now - qs[i].createdAt))
  }

  /** A post annotated with `is_recent`. */
  datatype Flagged = Flagged(post: Post, isRecent: bool)

  /** `annotate_is_recent`: flags the posts created within the last seven days. */
  function AnnotateIsRecent(qs: seq<Post>, now: int): (r: seq<Flagged>)
    ensures |r| == |qs|
    ensures forall i :: 0 <= i < |r| ==> r[i].post == qs[i]
    ensures forall i :: 0 <= i < |r| ==> (r[i].isRecent <==> qs[i].createdAt >= now - RecentWindowDays)
  {
    seq(|qs|, i requires 0 <= i < |qs| => Flagged(qs[i], qs[i].createdAt >= now - RecentWindowDays))
  }

  /**
   * The two annotations agree row by row: a post is flagged recent exactly
   * when it was published at most seven days ago.
   */
  lemma PublishedSinceAgreesWithIsRecent(qs: seq<Post>, now: int)
    ensures var aged := AnnotatePublishedSince(qs, now);
            var flagged := AnnotateIsRecent(qs, now);
            |aged| == |flagged| &&
            forall i :: 0 <= i < |aged| ==>
              aged[i].post == flagged[i].post &&
              (aged[i].daysSincePublished <= RecentWindowDays <==> flagged[i].isRecent)
  {
  }

  /** The posts an annotated queryset flags as recent, in order. */
  function FlaggedRecent(s: seq<Flagged>): seq<Post> {
    if |s| == 0 then []
    else (if s[0].isRecent then [s[0].post] else []) + FlaggedRecent(s[1..])
  }

  /**
   * The `is_recent` flag agrees with `filter_new_posts` over the same seven
   * days: the flagged posts are exactly the new posts, in the same order.
   */
  lemma {:induction false} IsRecentAgreesWithNewPosts(qs: seq<Post>, now: int)
    ensures FlaggedRecent(AnnotateIsRecent(qs, now)) == FilterNewPosts(qs, now, RecentWindowDays)
  {
    if |qs| > 0 {
      assert AnnotateIsRecent(qs, now)[1..] == AnnotateIsRecent(qs[1..], now);
      IsRecentAgreesWithNewPosts(qs[1..], now);
    }
  }

  /** `q` follows `p` in `p`'s category: the rows of the `next_post_slug` subquery. */
  predicate After(q: Post, p: Post) {
    q.category.pk == p.category.pk && q.pk > p.pk
  }

  /** `q` precedes `p` in `p`'s category: the rows of the `prev_post_slug` subquery. */
  predicate Before(q: Post, p: Post) {
    q.category.pk == p.category.pk && q.pk < p.pk
  }

  /** The post of `qs` with the smallest pk among those after `p` (`order_by("pk")[:1]`). */
  function NextInCategory(qs: seq<Post>, p: Post): (r: Option<Post>)
    ensures r.None? <==> forall q :: q in qs ==> !After(q, p)
    ensures r.Some? ==> r.value in qs && After(r.value, p)
    ensures r.Some? ==> forall q :: q in qs && After(q, p) ==> r.value.pk <= q.pk
  {
    if |qs| == 0 then None
    else
      assert forall q :: q in qs ==> q == qs[0] || q in qs[1..];
      var rest := NextInCategory(qs[1..], p);
      if !After(qs[0], p) then rest
      else if rest.None? || qs[0].pk <= rest.value.pk then Some(qs[0])
      else rest
  }

  /** The post of `qs` with the largest pk among those before `p` (`order_by("-pk")[:1]`). */
  function PrevInCategory(qs: seq<Post>, p: Post): (r: Option<Post>)
    ensures r.None? <==> forall q :: q in qs ==> !Before(q, p)
    ensures r.Some? ==> r.value in qs && Before(r.value, p)
    ensures r.Some? ==> forall q :: q in qs && Before(q, p) ==> r.value.pk >= q.pk
  {
    if |qs| == 0 then None
    else
      assert forall q :: q in qs ==> q == qs[0] || q in qs[1..];
      var rest := PrevInCategory(qs[1..], p);
      if !Before(qs[0], p) then rest
      else if rest.None? || qs[0].pk >= rest.value.pk then Some(qs[0])
      else rest
  }

  /** The slug of a subquery's single row, or NULL when it has none. */
  function SlugOf(p: Option<Post>): Option<string> {
    if p.Some? then Some(p.value.slug) else None
  }

  /** A post annotated with `next_post_slug` and `prev_post_slug`. */
  datatype Neighbours = Neighbours(post: Post, nextPostSlug: Option<string>, prevPostSlug: Option<string>)

  /** The slug is that of the smallest-pk post of `qs` after `p`, or NULL when none is. */
  ghost predicate IsNextSlug(qs: seq<Post>, p: Post, slug: Option<string>) {
    && (slug.None? <==> forall q :: q in qs ==> !After(q, p))
    && (slug.Some? ==>
          exists q :: q in qs && After(q, p) && q.slug == slug.value
                   && forall q' :: q' in qs && After(q', p) ==> q.pk <= q'.pk)
  }

  /** The slug is that of the largest-pk post of `qs` before `p`, or NULL when none is. */
  ghost predicate IsPrevSlug(qs: seq<Post>, p: Post, slug: Option<string>) {
    && (slug.None? <==> forall q :: q in qs ==> !Before(q, p))
    && (slug.Some? ==>
          exists q :: q in qs && Before(q, p) && q.slug == slug.value
                   && forall q' :: q' in qs && Before(q', p) ==> q.pk >= q'.pk)
  }

  /** One row of `annotate_next_and_prev`: `p` with its two neighbour slugs within `qs`. */
  function WithNeighbours(qs: seq<Post>, p: Post): (n: Neighbours)
    ensures n.post == p
    ensures IsNextSlug(qs, p, n.nextPostSlug)
    ensures IsPrevSlug(qs, p, n.prevPostSlug)
  {
    var next := NextInCategory(qs, p);
    var prev := PrevInCategory(qs, p);
    Neighbours(p, SlugOf(next), SlugOf(prev))
  }

  /**
   * `annotate_next_and_prev`: each post with the slug of the next and of the
   * previous post of its category, by pk, within the same queryset.
   */
  function AnnotateNextAndPrev(qs: seq<Post>): (r: seq<Neighbours>)
    ensures |r| == |qs|
    ensures forall i :: 0 <= i < |r| ==> r[i].post == qs[i]
    ensures forall i :: 0 <= i < |r| ==> IsNextSlug(qs, qs[i], r[i].nextPostSlug)
    ensures forall i :: 0 <= i < |r| ==> IsPrevSlug(qs, qs[i], r[i].prevPostSlug)
  {
    seq(|qs|, i requires 0 <= i < |qs| => WithNeighbours(qs, qs[i]))
  }

  /** `join_category` (`select_related`): the same rows, in the same order. */
  function JoinCategory(qs: seq<Post>): (r: seq<Post>)
    ensures r == qs
  {
    qs
  }

  /** `join_tags` (`prefetch_related`): the same rows, in the same order. */
  function JoinTags(qs: seq<Post>): (r: seq<Post>)
    ensures r == qs
  {
    qs
  }

  // ----------------------------------------------------------------- search

  /** The document of the full-text search vector over title and description. */
  function SearchDocument(p: Post): string {
    p.title + " " + p.description
  }

  ghost predicate FullTextHit(e: Engine, p: Post, q: string) {
    e.fullTextMatch(SearchDocument(p), q)
  }

  /** Title or description contains `q`, ignoring ASCII case (`icontains`). */
  ghost predicate SubstringHit(p: Post, q: string) {
    IsInfix(Lower(q), Lower(p.title)) || IsInfix(Lower(q), Lower(p.description))
  }

  /** The summed trigram similarity of title and description to `q`. */
  function Similarity(e: Engine, q: string): Post -> real {
    (p: Post) => e.similarity(p.title, q) + e.similarity(p.description, q)
  }

  ghost predicate TrigramHit(e: Engine, p: Post, q: string) {
    NamesPostgresql(e) && Similarity(e, q)(p) > TrigramThreshold
  }

  /**
   * The database error a query raises when it uses a function the database
   * does not have: the full-text vector `to_tsvector` exists only on
   * PostgreSQL and the backends built on it.
   */
  datatype DatabaseError = MissingFunction(name: string)

  const FullTextFunction := "to_tsvector"

  /**
   * `full_text_search`, evaluated: a blank query leaves the queryset as it
   * is; otherwise the full-text hits, or the database error when the
   * database has no full-text functions.
   */
  function FullTextSearch(qs: seq<Post>, q: string, e: Engine): (r: Result<seq<Post>, DatabaseError>)
    ensures q == "" ==> r == Ok(qs)
    ensures q != "" && !e.hasFullText ==> r == Err(MissingFunction(FullTextFunction))
    ensures q != "" && e.hasFullText ==> r.Ok? && forall p :: p in r.value <==> p in qs && FullTextHit(e, p, q)
    ensures q != "" && r.Ok? ==> forall p :: multiset(r.value)[p] == if FullTextHit(e, p, q) then multiset(qs)[p] else 0
    ensures r.Ok? ==> IsSubsequence(r.value, qs)
  {
    if q == "" then
      SubsequenceRefl(qs);
      Ok(qs)
    else if !e.hasFullText then Err(MissingFunction(FullTextFunction))
    else Ok(Filter(qs, (p: Post) => e.fullTextMatch(SearchDocument(p), q)))
  }

  /** `substring_search`: a blank query leaves the queryset as it is. */
  function SubstringSearch(qs: seq<Post>, q: string): (r: seq<Post>)
    ensures q == "" ==> r == qs
    ensures q != "" ==> forall p :: p in r <==> p in qs && SubstringHit(p, q)
    ensures q != "" ==> forall p :: multiset(r)[p] == if SubstringHit(p, q) then multiset(qs)[p] else 0
    ensures IsSubsequence(r, qs)
  {
    if q == "" then
      SubsequenceRefl(qs);
      qs
    else Filter(qs, (p: Post) => ContainsIgnoreCase(p.title, q) || ContainsIgnoreCase(p.description, q))
  }

  /**
   * `trigram_similarity_search`: the posts whose similarity exceeds 0.1, most
   * similar first; nothing at all for a blank query or when the configured
   * engine path does not name `postgresql`.
   */
  function TrigramSimilaritySearch(qs: seq<Post>, q: string, e: Engine): (r: seq<Post>)
    ensures q == "" || !NamesPostgresql(e) ==> r == []
    ensures q != "" ==> forall p :: p in r <==> p in qs && TrigramHit(e, p, q)
    ensures forall p :: multiset(r)[p] == if q != "" && TrigramHit(e, p, q) then multiset(qs)[p] else 0
    ensures SortedDesc(r, Similarity(e, q))
  {
    if q != "" && NamesPostgresql(e) then
      SortDesc(Filter(qs, (p: Post) => Similarity(e, q)(p) > TrigramThreshold), Similarity(e, q))
    else []
  }

  /**
   * `heavy_search`: a blank query returns the queryset unchanged; otherwise
   * the first of full-text, substring and trigram search that finds
   * anything answers alone, and no match anywhere gives an empty result.
   * The full-text stage runs first whatever the database, so without
   * full-text functions a non-blank query fails with the database error.
   */
  function HeavySearch(qs: seq<Post>, q: string, e: Engine): (r: Result<seq<Post>, DatabaseError>)
    ensures q == "" ==> r == Ok(qs)
    ensures q != "" && !e.hasFullText ==> r == Err(MissingFunction(FullTextFunction))
    ensures q != "" && e.hasFullText ==> r.Ok?
    ensures q != "" && e.hasFullText && (exists p :: p in qs && FullTextHit(e, p, q)) ==>
      forall p :: p in r.value <==> p in qs && FullTextHit(e, p, q)
    ensures q != "" && e.hasFullText && (forall p :: p in qs ==> !FullTextHit(e, p, q))
                    && (exists p :: p in qs && SubstringHit(p, q)) ==>
      forall p :: p in r.value <==> p in qs && SubstringHit(p, q)
    ensures q != "" && e.hasFullText && (forall p :: p in qs ==> !FullTextHit(e, p, q) && !SubstringHit(p, q)) ==>
      (forall p :: p in r.value <==> p in qs && TrigramHit(e, p, q)) && SortedDesc(r.value, Similarity(e, q))
      && (forall p :: multiset(r.value)[p] == if TrigramHit(e, p, q) then multiset(qs)[p] else 0)
    ensures q != "" && e.hasFullText ==> (r.value == [] <==> forall p :: p in qs ==>
      !FullTextHit(e, p, q) && !SubstringHit(p, q) && !TrigramHit(e, p, q))
  {
    if q == "" then Ok(qs)
    else
      match FullTextSearch(qs, q, e)
      case Err(error) => Err(error)
      case Ok(fullText) =>
        if |fullText| > 0 then
          assert fullText[0] in fullText;
          Ok(fullText)
        else
          var substring := SubstringSearch(qs, q);
          if |substring| > 0 then
            assert substring[0] in substring;
            Ok(substring)
          else if NamesPostgresql(e) then
            var trigram := TrigramSimilaritySearch(qs, q, e);
            if |trigram| > 0 then
              assert trigram[0] in trigram;
              Ok(trigram)
            else Ok([])
          else Ok([])
  }

  /**
   * A database with full-text functions whose engine path does not name
   * `postgresql` (PostGIS, say) never reaches the trigram stage: a search
   * without full-text or substring hits is simply empty.
   */
  lemma NoTrigramStageUnlessNamedPostgresql(qs: seq<Post>, q: string, e: Engine)
    requires q != "" && e.hasFullText && !NamesPostgresql(e)
    ensures var r := HeavySearch(qs, q, e);
      r.Ok? && (r.value == [] <==> forall p :: p in qs ==> !FullTextHit(e, p, q) && !SubstringHit(p, q))
  {
  }

  /**
   * Fallback is first-match-wins, never a union: the result is one stage's
   * result as that stage computes it, chosen by the first non-empty stage,
   * and a failing full-text stage fails the whole search.
   */
  lemma HeavySearchIsFirstNonEmptyStage(qs: seq<Post>, q: string, e: Engine)
    requires q != ""
    ensures var r := HeavySearch(qs, q, e);
      var fullText := FullTextSearch(qs, q, e);
      && (fullText.Err? ==> r == fullText)
      && (fullText.Ok? && fullText.value != [] ==> r == fullText)
      && (fullText.Ok? && fullText.value == [] && SubstringSearch(qs, q) != [] ==> r == Ok(SubstringSearch(qs, q)))
      && (fullText.Ok? && fullText.value == [] && SubstringSearch(qs, q) == [] ==>
            r == Ok(TrigramSimilaritySearch(qs, q, e)))
  {
  }
}
