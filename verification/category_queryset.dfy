/**
 * `CategoryQuerySet`: category queries over the categories of a queryset and
 * the post table their `posts` relation joins to.
 */
module CategoryQuerySet {
  import opened Wrappers
  import opened Records
  import opened QuerySets

  /** The `posts` relation restricted to posts whose publish flag is `isActive`. */
  function ActivePostLink(isActive: bool): (Category, Post) -> bool {
    (c: Category, p: Post) => InCategory(p, c) && p.published == isActive
  }

  /** `get_actives`: the categories whose publish flag is `isActive`. */
  function GetActives(cats: seq<Category>, isActive: bool): (r: seq<Category>)
    ensures forall c :: multiset(r)[c] == if c.published == isActive then multiset(cats)[c] else 0
    ensures forall c :: c in r <==> c in cats && c.published == isActive
    ensures IsSubsequence(r, cats)
  {
    Filter(cats, (c: Category) => c.published == isActive)
  }

  /**
   * `filter_active_posts`: published categories, one row per post of theirs
   * whose publish flag is `isActive`; the category's own flag is required
   * whatever `isActive` is.
   */
  function FilterActivePosts(cats: seq<Category>, posts: seq<Post>, isActive: bool): (r: seq<Category>)
    ensures forall c :: (multiset(r)[c] ==
      (if c.published then multiset(cats)[c] else 0) * Matches(c, posts, ActivePostLink(isActive)))
    ensures forall c :: (c in r <==>
      c in cats && c.published && exists p :: p in posts && InCategory(p, c) && p.published == isActive)
  {
    JoinRows(GetActives(cats, true), posts, ActivePostLink(isActive))
  }

  /**
   * `annotate_total_posts`: the published categories with a published post,
   * each once, with the number of their published posts; a category without
   * published posts is absent rather than counted as zero.
   */
  function AnnotateTotalPosts(cats: seq<Category>, posts: seq<Post>): (r: seq<Counted<Category>>)
    ensures NoDuplicates(Rows(r))
    ensures forall k :: k in r ==>
      k.row in cats && k.row.published && k.total >= 1 && k.total == Matches(k.row, posts, ActivePostLink(true))
    ensures forall c :: c in cats && c.published && (exists p :: p in posts && InCategory(p, c) && p.published) ==>
      c in Rows(r)
  {
    var r := AnnotateCount(FilterActivePosts(cats, posts, true), posts, ActivePostLink(true));
    TotalPostsFacts(cats, posts);
    r
  }

  lemma TotalPostsFacts(cats: seq<Category>, posts: seq<Post>)
    ensures forall k :: k in AnnotateCount(FilterActivePosts(cats, posts, true), posts, ActivePostLink(true)) ==>
      k.row in cats && k.row.published && k.total >= 1 && k.total == Matches(k.row, posts, ActivePostLink(true))
    ensures forall c :: c in cats && c.published && (exists p :: p in posts && InCategory(p, c) && p.published) ==>
      c in Rows(AnnotateCount(FilterActivePosts(cats, posts, true), posts, ActivePostLink(true)))
  {
    var joined := FilterActivePosts(cats, posts, true);
    var r := AnnotateCount(joined, posts, ActivePostLink(true));
    forall k | k in r
      ensures k.row in cats && k.row.published && k.total >= 1
    {
      assert k.row in joined;
      var p :| p in posts && InCategory(p, k.row) && p.published;
      assert ActivePostLink(true)(k.row, p);
    }
    forall c | c in cats && c.published && (exists p :: p in posts && InCategory(p, c) && p.published)
      ensures c in Rows(r)
    {
      assert c in joined;
    }
  }

  /** `join_posts` (`prefetch_related`): the same rows, in the same order. */
  function JoinPosts(cats: seq<Category>): (r: seq<Category>)
    ensures r == cats
  {
    cats
  }

  /**
   * `exclude_inactive_posts`: one row per published post of each category,
   * whatever the category's own flag.
   */
  function ExcludeInactivePosts(cats: seq<Category>, posts: seq<Post>): (r: seq<Category>)
    ensures forall c :: multiset(r)[c] == multiset(cats)[c] * Matches(c, posts, ActivePostLink(true))
    ensures forall c :: c in r <==> c in cats && exists p :: p in posts && InCategory(p, c) && p.published
  {
    JoinRows(cats, posts, ActivePostLink(true))
  }

  /**
   * `filter_recent_categories(num_categories, obj)`: the `numCategories` most
   * recently created categories, newest first, leaving out `obj`.
   */
  function FilterRecentCategories(cats: seq<Category>, numCategories: nat, obj: Option<Category>): (r: seq<Category>)
    ensures forall i, j :: 0 <= i < j < |r| ==> r[i].createdAt >= r[j].createdAt
    ensures forall c :: c in r ==> c in cats
    ensures obj.Some? ==> forall c :: c in r ==> c.pk != obj.value.pk
    ensures |r| == Min(numCategories, |ExcludeObject(cats, CategoryPk, obj)|)
    ensures multiset(r) <= multiset(ExcludeObject(cats, CategoryPk, obj))
    ensures forall c, i :: c in ExcludeObject(cats, CategoryPk, obj) && c !in r && 0 <= i < |r| ==>
              c.createdAt <= r[i].createdAt
  {
    var excluded := if obj.Some? then Some(obj.value.pk) else None;
    var r := RecentFirst(cats, CategoryCreated, CategoryPk, excluded, numCategories);
    RecentCategoriesFacts(cats, numCategories, obj, excluded, r);
    r
  }

  /**
   * `FilterRecentCategories`'s contract, restated for the `RecentFirst` call
   * its body makes: specialising the generic keys to the category fields is
   * proved here, apart from the function, to keep each proof obligation small.
   */
  lemma RecentCategoriesFacts(cats: seq<Category>, numCategories: nat, obj: Option<Category>, excluded: Option<int>, r: seq<Category>)
    requires excluded == if obj.Some? then Some(obj.value.pk) else None
    requires r == RecentFirst(cats, CategoryCreated, CategoryPk, excluded, numCategories)
    ensures forall i, j :: 0 <= i < j < |r| ==> r[i].createdAt >= r[j].createdAt
    ensures forall c :: c in r ==> c in cats
    ensures obj.Some? ==> forall c :: c in r ==> c.pk != obj.value.pk
    ensures |r| == Min(numCategories, |ExcludeObject(cats, CategoryPk, obj)|)
    ensures multiset(r) <= multiset(ExcludeObject(cats, CategoryPk, obj))
    ensures forall c, i :: c in ExcludeObject(cats, CategoryPk, obj) && c !in r && 0 <= i < |r| ==>
              c.createdAt <= r[i].createdAt
  {
    assert ExcludeObject(cats, CategoryPk, obj) == ExcludePk(cats, CategoryPk, excluded);
    forall i, j | 0 <= i < j < |r| ensures r[i].createdAt >= r[j].createdAt {
      assert CategoryCreated(r[i]) >= CategoryCreated(r[j]);
    }
    forall c | c in r ensures c in cats && (obj.Some? ==> c.pk != obj.value.pk) {
      assert excluded.Some? ==> CategoryPk(c) != excluded.value;
    }
    forall c, i | c in ExcludeObject(cats, CategoryPk, obj) && c !in r && 0 <= i < |r|
      ensures c.createdAt <= r[i].createdAt
    {
      assert CategoryCreated(c) <= CategoryCreated(r[i]);
    }
  }
}
