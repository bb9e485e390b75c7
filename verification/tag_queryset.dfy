/**
 * `TagQuerySet`: tag queries over the tags of a queryset and the post table
 * their `posts` relation joins to — recent-usage and trend rankings with
 * argument validation, popularity ordering and the join-based filters.
 */
module TagQuerySet {
  import opened Wrappers
  import opened Text
  import opened Records
  import opened QuerySets

  /** The `ValueError` the rankings raise for malformed arguments. */
  datatype ValueError = ValueError(message: string)

  const DaysAgoError := ValueError("`days_ago` must be a non-negative integer")
  const MinCountError := ValueError("`min_count` must be a positive integer")
  const LimitError := ValueError("`limit` must be a positive integer or None")

  // ------------------------------------------------------------- relations

  /** The `posts` relation of a tag. */
  function TagLink(t: Tag, p: Post): bool {
    HasTag(p, t)
  }

  /** The `posts` relation restricted to posts created no earlier than `since`. */
  function PostedSince(since: int): (Tag, Post) -> bool {
    (t: Tag, p: Post) => HasTag(p, t) && p.createdAt >= since
  }

  /** The `posts` relation restricted to posts whose publish flag is `isPublished`. */
  function PublishedLink(isPublished: bool): (Tag, Post) -> bool {
    (t: Tag, p: Post) => HasTag(p, t) && p.published == isPublished
  }

  /** `Count("posts")`: the number of posts of `t`. */
  function PostCount(t: Tag, posts: seq<Post>): nat {
    Matches(t, posts, TagLink)
  }

  /** `Count("posts", filter=...)` over the last `daysAgo` days, or all posts when `daysAgo` is 0. */
  function WindowCount(t: Tag, posts: seq<Post>, now: int, daysAgo: nat): nat {
    if daysAgo == 0 then PostCount(t, posts) else Matches(t, posts, PostedSince(now - daysAgo))
  }

  /** `Max("posts__created_at")`: the creation time of the newest post of `t`, NULL without posts. */
  function LatestPostDate(t: Tag, posts: seq<Post>): (r: Option<int>)
    ensures r.None? <==> forall p :: p in posts ==> !HasTag(p, t)
    ensures r.Some? ==> exists p :: p in posts && HasTag(p, t) && p.createdAt == r.value
    ensures r.Some? ==> forall p :: p in posts && HasTag(p, t) ==> p.createdAt <= r.value
  {
    if |posts| == 0 then None
    else
      assert forall p :: p in posts ==> p == posts[0] || p in posts[1..];
      var rest := LatestPostDate(t, posts[1..]);
      if !HasTag(posts[0], t) then rest
      else if rest.None? || posts[0].createdAt >= rest.value then Some(posts[0].createdAt)
      else rest
  }

  /** The latest post date as a sort key; only tags with posts are sorted by it. */
  function LatestKey(posts: seq<Post>): Tag -> real {
    (t: Tag) => var d := LatestPostDate(t, posts); if d.Some? then d.value as real else 0.0
  }

  /** The post count as a sort key. */
  function CountKey(posts: seq<Post>): Tag -> real {
    (t: Tag) => PostCount(t, posts) as real
  }

  /**
   * The order of `order_by("-latest_post_date")`: a tag with posts comes no
   * later than any tag with older posts or with none (NULL sorts last).
   */
  function LatestFirst(posts: seq<Post>): (Tag, Tag) -> bool {
    (a: Tag, b: Tag) =>
      LatestPostDate(b, posts).Some? ==>
        LatestPostDate(a, posts).Some? && LatestPostDate(a, posts).value >= LatestPostDate(b, posts).value
  }

  // -------------------------------------------------------- recent ranking

  /** The tags by their latest post, newest first, tags without posts last. */
  function ByLatestPost(tags: seq<Tag>, posts: seq<Post>): (r: seq<Tag>)
    ensures multiset(r) == multiset(tags)
    ensures Ordered(r, LatestFirst(posts))
  {
    var hasPosts := (t: Tag) => LatestPostDate(t, posts).Some?;
    var noPosts := (t: Tag) => LatestPostDate(t, posts).None?;
    var used := Filter(tags, hasPosts);
    var unused := Filter(tags, noPosts);
    var sorted := SortDesc(used, LatestKey(posts));
    FilterSplit(tags, hasPosts, noPosts);
    LatestFirstOrder(posts, used, unused, sorted);
    sorted + unused
  }

  /** Tags with posts sorted by latest post, then the tags without posts, are in `LatestFirst` order. */
  lemma LatestFirstOrder(posts: seq<Post>, used: seq<Tag>, unused: seq<Tag>, sorted: seq<Tag>)
    requires forall t :: t in used ==> LatestPostDate(t, posts).Some?
    requires forall t :: t in unused ==> LatestPostDate(t, posts).None?
    requires multiset(sorted) == multiset(used)
    requires SortedDesc(sorted, LatestKey(posts))
    ensures Ordered(sorted + unused, LatestFirst(posts))
  {
    var r := sorted + unused;
    forall i, j | 0 <= i < j < |r| ensures LatestFirst(posts)(r[i], r[j]) {
      if j >= |sorted| {
        assert r[j] == unused[j - |sorted|];
        assert r[j] in unused;
      } else {
        assert r[i] == sorted[i] && r[j] == sorted[j];
        assert sorted[i] in multiset(used) && sorted[j] in multiset(used);
        assert LatestKey(posts)(sorted[i]) >= LatestKey(posts)(sorted[j]);
      }
    }
  }

  /** Tag `t` has a post created no earlier than `since`. */
  ghost predicate UsedSince(t: Tag, posts: seq<Post>, since: int) {
    exists p :: p in posts && HasTag(p, t) && p.createdAt >= since
  }

  /** The queryset `filter_recent_tags` builds before the exclusion and the limit. */
  function RecentTags(tags: seq<Tag>, posts: seq<Post>, now: int, daysAgo: nat): seq<Tag> {
    if daysAgo == 0 then ByLatestPost(tags, posts)
    else Distinct(JoinRows(tags, posts, PostedSince(now - daysAgo)))
  }

  /** `qs[:limit]` when a limit is given. */
  function Limit<T>(qs: seq<T>, limit: Option<int>): (r: seq<T>)
    requires limit.Some? ==> limit.value > 0
    ensures limit.None? ==> r == qs
    ensures limit.Some? ==> r == Take(qs, limit.value)
  {
    if limit.Some? then Take(qs, limit.value) else qs
  }

  /**
   * `filter_recent_tags(days_ago, limit, obj)`. Bad arguments raise before
   * any query. With `days_ago` 0 every tag is returned, ordered by its latest
   * post; otherwise each tag with a post in the window is returned once.
   * `obj` is left out and `limit` truncates.
   */
  function FilterRecentTags(tags: seq<Tag>, posts: seq<Post>, now: int,
                            daysAgo: int, limit: Option<int>, obj: Option<Tag>): (r: Result<seq<Tag>, ValueError>)
    ensures daysAgo < 0 ==> r == Err(DaysAgoError)
    ensures daysAgo >= 0 && limit.Some? && limit.value <= 0 ==> r == Err(LimitError)
    ensures r.Ok? <==> daysAgo >= 0 && (limit.Some? ==> limit.value > 0)
    ensures r.Ok? ==> forall t :: t in r.value ==> t in tags
    ensures r.Ok? && obj.Some? ==> forall t :: t in r.value ==> t.pk != obj.value.pk
    ensures r.Ok? && limit.Some? ==> |r.value| <= limit.value
    ensures r.Ok? && daysAgo == 0 ==> Ordered(r.value, LatestFirst(posts))
    ensures r.Ok? && daysAgo == 0 && limit.None? ==>
      forall t :: t in tags && (obj.Some? ==> t.pk != obj.value.pk) ==> t in r.value
    ensures r.Ok? && daysAgo == 0 && limit.None? && obj.None? ==> multiset(r.value) == multiset(tags)
    ensures r.Ok? && daysAgo > 0 ==> NoDuplicates(r.value)
    ensures r.Ok? && daysAgo > 0 ==> forall t :: t in r.value ==> UsedSince(t, posts, now - daysAgo)
    ensures r.Ok? && daysAgo > 0 && limit.None? ==>
      forall t :: t in tags && UsedSince(t, posts, now - daysAgo) && (obj.Some? ==> t.pk != obj.value.pk) ==>
        t in r.value
  {
    if daysAgo < 0 then Err(DaysAgoError)
    else if limit.Some? && limit.value <= 0 then Err(LimitError)
    else
      var qs := RecentTags(tags, posts, now, daysAgo);
      var kept := ExcludeObject(qs, TagPk, obj);
      var r := Limit(kept, limit);
      RecentTagsFacts(tags, posts, now, daysAgo, obj, limit);
      Ok(r)
  }

  lemma RecentTagsFacts(tags: seq<Tag>, posts: seq<Post>, now: int, daysAgo: nat, obj: Option<Tag>, limit: Option<int>)
    requires limit.Some? ==> limit.value > 0
    ensures var qs := RecentTags(tags, posts, now, daysAgo);
            forall t :: t in qs <==> t in tags && (daysAgo > 0 ==> UsedSince(t, posts, now - daysAgo))
    ensures var r := Limit(ExcludeObject(RecentTags(tags, posts, now, daysAgo), TagPk, obj), limit);
            && (forall t :: t in r ==> t in ExcludeObject(RecentTags(tags, posts, now, daysAgo), TagPk, obj))
            && (daysAgo == 0 ==> Ordered(r, LatestFirst(posts)))
            && (daysAgo > 0 ==> NoDuplicates(r))
  {
    var qs := RecentTags(tags, posts, now, daysAgo);
    var kept := ExcludeObject(qs, TagPk, obj);
    var r := Limit(kept, limit);
    var excluded := if obj.Some? then Some(obj.value.pk) else None;
    assert forall t :: t in r ==> t in kept;
    if daysAgo == 0 {
      assert forall t :: t in qs <==> t in multiset(tags);
      ExcludePkKeepsOrder(qs, TagPk, excluded, LatestFirst(posts));
      TakeKeepsOrder(kept, if limit.Some? then limit.value else |kept|, LatestFirst(posts));
    } else {
      NoDuplicatesIsOrdered(qs);
      ExcludePkKeepsOrder(qs, TagPk, excluded, Unequal());
      TakeKeepsOrder(kept, if limit.Some? then limit.value else |kept|, Unequal());
      OrderedIsNoDuplicates(r);
    }
  }

  /** A limit only cuts the unlimited ranking short: the limited result is its first `n` tags. */
  lemma RecentTagsLimitIsPrefix(tags: seq<Tag>, posts: seq<Post>, now: int, daysAgo: int, obj: Option<Tag>, n: int)
    requires daysAgo >= 0 && n > 0
    ensures FilterRecentTags(tags, posts, now, daysAgo, None, obj).Ok?
    ensures FilterRecentTags(tags, posts, now, daysAgo, Some(n), obj)
         == Ok(Take(FilterRecentTags(tags, posts, now, daysAgo, None, obj).value, n))
  {
  }

  // --------------------------------------------------------- trend ranking

  /** The queryset `filter_trend_tags` builds before the limit. */
  function TrendTags(tags: seq<Tag>, posts: seq<Post>, now: int, daysAgo: nat, minCount: int): seq<Tag> {
    if daysAgo == 0 then
      SortDesc(Filter(tags, (t: Tag) => PostCount(t, posts) >= minCount), CountKey(posts))
    else
      Filter(tags, (t: Tag) => Matches(t, posts, PostedSince(now - daysAgo)) >= minCount)
  }

  /**
   * `filter_trend_tags(days_ago, min_count, limit)`: the tags with at least
   * `min_count` posts in the window (all posts when `days_ago` is 0), most
   * used first when `days_ago` is 0; bad arguments raise before any query.
   */
  function FilterTrendTags(tags: seq<Tag>, posts: seq<Post>, now: int,
                           daysAgo: int, minCount: int, limit: Option<int>): (r: Result<seq<Tag>, ValueError>)
    ensures daysAgo < 0 ==> r == Err(DaysAgoError)
    ensures daysAgo >= 0 && minCount <= 0 ==> r == Err(MinCountError)
    ensures daysAgo >= 0 && minCount > 0 && limit.Some? && limit.value <= 0 ==> r == Err(LimitError)
    ensures r.Ok? <==> daysAgo >= 0 && minCount > 0 && (limit.Some? ==> limit.value > 0)
    ensures r.Ok? ==> forall t :: t in r.value ==> t in tags && WindowCount(t, posts, now, daysAgo) >= minCount
    ensures r.Ok? && limit.None? ==>
      forall t :: multiset(r.value)[t] == if WindowCount(t, posts, now, daysAgo) >= minCount then multiset(tags)[t] else 0
    ensures r.Ok? && limit.Some? ==> |r.value| <= limit.value
    ensures r.Ok? && daysAgo == 0 ==>
      forall i, j :: 0 <= i < j < |r.value| ==> PostCount(r.value[i], posts) >= PostCount(r.value[j], posts)
    ensures r.Ok? && daysAgo == 0 ==>
      forall t, i :: t in tags && PostCount(t, posts) >= minCount && t !in r.value && 0 <= i < |r.value| ==>
        PostCount(t, posts) <= PostCount(r.value[i], posts)
  {
    if daysAgo < 0 then Err(DaysAgoError)
    else if minCount <= 0 then Err(MinCountError)
    else if limit.Some? && limit.value <= 0 then Err(LimitError)
    else
      var qs := TrendTags(tags, posts, now, daysAgo, minCount);
      var r := Limit(qs, limit);
      TrendTagsFacts(tags, posts, now, daysAgo, minCount, limit, qs, r);
      Ok(r)
  }

  lemma TrendTagsFacts(tags: seq<Tag>, posts: seq<Post>, now: int, daysAgo: nat, minCount: int,
                       limit: Option<int>, qs: seq<Tag>, r: seq<Tag>)
    requires limit.Some? ==> limit.value > 0
    requires qs == TrendTags(tags, posts, now, daysAgo, minCount)
    requires r == Limit(qs, limit)
    ensures limit.None? ==> r == qs
    ensures limit.Some? ==> |r| <= limit.value
    ensures forall t :: multiset(qs)[t] == if WindowCount(t, posts, now, daysAgo) >= minCount then multiset(tags)[t] else 0
    ensures forall t :: t in r ==> t in tags && WindowCount(t, posts, now, daysAgo) >= minCount
    ensures daysAgo == 0 ==>
      forall i, j :: 0 <= i < j < |r| ==> PostCount(r[i], posts) >= PostCount(r[j], posts)
    ensures daysAgo == 0 ==>
      forall t, i :: t in tags && PostCount(t, posts) >= minCount && t !in r && 0 <= i < |r| ==>
        PostCount(t, posts) <= PostCount(r[i], posts)
  {
    TrendTagsCounts(tags, posts, now, daysAgo, minCount, qs);
    TrendTagsMembers(tags, posts, now, daysAgo, minCount, qs, r);
    if daysAgo == 0 {
      var n := if limit.Some? then limit.value else |qs|;
      assert r == Take(qs, n);
      TrendTagsSorted(tags, posts, now, minCount, qs);
      TopByCount(tags, posts, minCount, qs, n);
    }
  }

  lemma TrendTagsMembers(tags: seq<Tag>, posts: seq<Post>, now: int, daysAgo: nat, minCount: int, qs: seq<Tag>, r: seq<Tag>)
    requires forall t :: multiset(qs)[t] == if WindowCount(t, posts, now, daysAgo) >= minCount then multiset(tags)[t] else 0
    requires forall t :: t in r ==> t in qs
    ensures forall t :: t in r ==> t in tags && WindowCount(t, posts, now, daysAgo) >= minCount
  {
    forall t | t in r ensures t in tags && WindowCount(t, posts, now, daysAgo) >= minCount {
      assert multiset(qs)[t] > 0;
    }
  }

  lemma TrendTagsSorted(tags: seq<Tag>, posts: seq<Post>, now: int, minCount: int, qs: seq<Tag>)
    requires qs == TrendTags(tags, posts, now, 0, minCount)
    ensures SortedDesc(qs, CountKey(posts))
    ensures forall t :: t in tags && PostCount(t, posts) >= minCount ==> t in qs
  {
    var kept := Filter(tags, (t: Tag) => PostCount(t, posts) >= minCount);
    assert qs == SortDesc(kept, CountKey(posts));
    forall t | t in tags && PostCount(t, posts) >= minCount ensures t in qs {
      assert t in kept;
      assert multiset(qs)[t] == multiset(kept)[t];
    }
  }

  /** The first `n` tags of a count-sorted queryset are its `n` most used, in order. */
  lemma TopByCount(tags: seq<Tag>, posts: seq<Post>, minCount: int, qs: seq<Tag>, n: nat)
    requires SortedDesc(qs, CountKey(posts))
    requires forall t :: t in tags && PostCount(t, posts) >= minCount ==> t in qs
    ensures forall i, j :: 0 <= i < j < |Take(qs, n)| ==> PostCount(Take(qs, n)[i], posts) >= PostCount(Take(qs, n)[j], posts)
    ensures forall t, i :: t in tags && PostCount(t, posts) >= minCount && t !in Take(qs, n) && 0 <= i < |Take(qs, n)| ==>
              PostCount(t, posts) <= PostCount(Take(qs, n)[i], posts)
  {
    var r := Take(qs, n);
    TakeOfSortedIsTop(qs, CountKey(posts), n);
    forall i, j | 0 <= i < j < |r| ensures PostCount(r[i], posts) >= PostCount(r[j], posts) {
      assert CountKey(posts)(r[i]) >= CountKey(posts)(r[j]);
    }
    forall t, i | t in tags && PostCount(t, posts) >= minCount && t !in r && 0 <= i < |r|
      ensures PostCount(t, posts) <= PostCount(r[i], posts)
    {
      assert CountKey(posts)(t) <= CountKey(posts)(r[i]);
    }
  }

  lemma TrendTagsCounts(tags: seq<Tag>, posts: seq<Post>, now: int, daysAgo: nat, minCount: int, qs: seq<Tag>)
    requires qs == TrendTags(tags, posts, now, daysAgo, minCount)
    ensures forall t :: multiset(qs)[t] == if WindowCount(t, posts, now, daysAgo) >= minCount then multiset(tags)[t] else 0
  {
    if daysAgo == 0 {
      var kept := Filter(tags, (t: Tag) => PostCount(t, posts) >= minCount);
      assert multiset(qs) == multiset(kept);
    }
  }

  /** A limit only cuts the unlimited ranking short: the limited result is its first `n` tags. */
  lemma TrendTagsLimitIsPrefix(tags: seq<Tag>, posts: seq<Post>, now: int, daysAgo: int, minCount: int, n: int)
    requires daysAgo >= 0 && minCount > 0 && n > 0
    ensures FilterTrendTags(tags, posts, now, daysAgo, minCount, None).Ok?
    ensures FilterTrendTags(tags, posts, now, daysAgo, minCount, Some(n))
         == Ok(Take(FilterTrendTags(tags, posts, now, daysAgo, minCount, None).value, n))
  {
  }

  // ------------------------------------------------------ joins and filters

  /** `filter_published`: the tags whose publish flag is `isPublished`. */
  function FilterPublished(tags: seq<Tag>, isPublished: bool): (r: seq<Tag>)
    ensures forall t :: multiset(r)[t] == if t.published == isPublished then multiset(tags)[t] else 0
    ensures IsSubsequence(r, tags)
  {
    Filter(tags, (t: Tag) => t.published == isPublished)
  }

  /**
   * `filter_published_posts`: published tags, one row per post of theirs whose
   * publish flag is `isPublished`; the tag's own flag is always required.
   */
  function FilterPublishedPosts(tags: seq<Tag>, posts: seq<Post>, isPublished: bool): (r: seq<Tag>)
    ensures forall t :: (multiset(r)[t] ==
      (if t.published then multiset(tags)[t] else 0) * Matches(t, posts, PublishedLink(isPublished)))
    ensures forall t :: (t in r <==>
      t in tags && t.published && exists p :: p in posts && HasTag(p, t) && p.published == isPublished)
  {
    JoinRows(FilterPublished(tags, true), posts, PublishedLink(isPublished))
  }

  /**
   * `annotate_total_posts`: the published tags with a published post, each
   * once, with the number of its published posts.
   */
  function AnnotateTotalPosts(tags: seq<Tag>, posts: seq<Post>): (r: seq<Counted<Tag>>)
    ensures NoDuplicates(Rows(r))
    ensures forall c :: c in r ==>
      c.row in tags && c.row.published && c.total >= 1 && c.total == Matches(c.row, posts, PublishedLink(true))
    ensures forall t :: t in tags && t.published && (exists p :: p in posts && HasTag(p, t) && p.published) ==>
      t in Rows(r)
  {
    var r := AnnotateCount(FilterPublishedPosts(tags, posts, true), posts, PublishedLink(true));
    TotalPostsFacts(tags, posts);
    r
  }

  lemma TotalPostsFacts(tags: seq<Tag>, posts: seq<Post>)
    ensures forall c :: c in AnnotateCount(FilterPublishedPosts(tags, posts, true), posts, PublishedLink(true)) ==>
      c.row in tags && c.row.published && c.total >= 1 && c.total == Matches(c.row, posts, PublishedLink(true))
    ensures forall t :: t in tags && t.published && (exists p :: p in posts && HasTag(p, t) && p.published) ==>
      t in Rows(AnnotateCount(FilterPublishedPosts(tags, posts, true), posts, PublishedLink(true)))
  {
    var joined := FilterPublishedPosts(tags, posts, true);
    var r := AnnotateCount(joined, posts, PublishedLink(true));
    forall c | c in r
      ensures c.row in tags && c.row.published && c.total >= 1
    {
      assert c.row in joined;
      var p :| p in posts && HasTag(p, c.row) && p.published;
      assert PublishedLink(true)(c.row, p);
    }
    forall t | t in tags && t.published && (exists p :: p in posts && HasTag(p, t) && p.published)
      ensures t in Rows(r)
    {
      assert t in joined;
    }
  }

  /** `search`: the tags whose title contains `term`, ignoring case. */
  function Search(tags: seq<Tag>, term: string): (r: seq<Tag>)
    ensures forall t :: t in r <==> t in tags && IsInfix(Lower(term), Lower(t.title))
    ensures forall t :: multiset(r)[t] == if IsInfix(Lower(term), Lower(t.title)) then multiset(tags)[t] else 0
    ensures term == "" ==> r == tags
    ensures IsSubsequence(r, tags)
  {
    var r := Filter(tags, (t: Tag) => ContainsIgnoreCase(t.title, term));
    if term == "" then
      EveryTitleContainsEmpty(tags);
      FilterAll(tags, (t: Tag) => ContainsIgnoreCase(t.title, term));
      r
    else r
  }

  lemma EveryTitleContainsEmpty(tags: seq<Tag>)
    ensures forall t :: t in tags ==> ContainsIgnoreCase(t.title, "")
  {
    forall t | t in tags ensures ContainsIgnoreCase(t.title, "") {
      assert OccursAt(Lower(t.title), Lower(""), 0);
    }
  }

  /** The link of `filter_by_posts_category`: a post of the tag lies in a category with that title. */
  function CategoryTitleLink(categoryTitle: string): (Tag, Post) -> bool {
    (t: Tag, p: Post) => HasTag(p, t) && p.category.title == categoryTitle
  }

  /** `filter_by_posts_category`: each tag with a post in a category titled `categoryTitle`, once. */
  function FilterByPostsCategory(tags: seq<Tag>, posts: seq<Post>, categoryTitle: string): (r: seq<Tag>)
    ensures forall t :: t in r <==> t in tags && exists p :: p in posts && HasTag(p, t) && p.category.title == categoryTitle
    ensures NoDuplicates(r)
  {
    Distinct(JoinRows(tags, posts, CategoryTitleLink(categoryTitle)))
  }

  /** `exclude_unpublished_posts`: one row per published post of each tag, whatever the tag's own flag. */
  function ExcludeUnpublishedPosts(tags: seq<Tag>, posts: seq<Post>): (r: seq<Tag>)
    ensures forall t :: multiset(r)[t] == multiset(tags)[t] * Matches(t, posts, PublishedLink(true))
    ensures forall t :: t in r <==> t in tags && exists p :: p in posts && HasTag(p, t) && p.published
  {
    JoinRows(tags, posts, PublishedLink(true))
  }

  /** `sort_by_popularity`: all the tags, most posts first, so tags without posts come last. */
  function SortByPopularity(tags: seq<Tag>, posts: seq<Post>): (r: seq<Tag>)
    ensures multiset(r) == multiset(tags)
    ensures forall i, j :: 0 <= i < j < |r| ==> PostCount(r[i], posts) >= PostCount(r[j], posts)
    ensures forall i, j :: 0 <= i < j < |r| && PostCount(r[i], posts) == 0 ==> PostCount(r[j], posts) == 0
  {
    SortDesc(tags, CountKey(posts))
  }

  /** The link of `filter_by_post_date_range`: a post of the tag created within the closed range. */
  function CreatedInRange(startDate: int, endDate: int): (Tag, Post) -> bool {
    (t: Tag, p: Post) => HasTag(p, t) && startDate <= p.createdAt <= endDate
  }

  /** `filter_by_post_date_range`: each tag with a post created in `[startDate, endDate]`, once. */
  function FilterByPostDateRange(tags: seq<Tag>, posts: seq<Post>, startDate: int, endDate: int): (r: seq<Tag>)
    ensures forall t :: t in r <==> t in tags && exists p :: p in posts && HasTag(p, t) && startDate <= p.createdAt <= endDate
    ensures startDate > endDate ==> r == []
    ensures NoDuplicates(r)
  {
    var joined := JoinRows(tags, posts, CreatedInRange(startDate, endDate));
    var r := Distinct(joined);
    assert forall t :: t in r <==> t in joined;
    assert startDate > endDate ==> r == [] by {
      if startDate > endDate && r != [] {
        assert false;
      }
    }
    r
  }
}
