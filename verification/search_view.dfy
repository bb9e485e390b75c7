/**
 * `SearchableMixin.get_queryset`: the post list a search page shows, from the
 * request's query parameters. A non-blank `search` runs the heavy search
 * alone; a blank one leaves the `cat` and `tag` slug filters of `PostFilter`
 * to narrow the list.
 */
module SearchView {
  import opened Wrappers
  import opened QuerySets
  import opened Records
  import opened Text
  import PostQuerySet

  /** The request's GET parameters (one value per name). */
  type Params = map<string, string>

  const SearchParamName := "search"
  const CategoryParamName := "cat"
  const TagParamName := "tag"

  /** `request.GET.get(name, "")`. */
  function Get(params: Params, name: string): string {
    if name in params then params[name] else ""
  }

  /**
   * The value a `CharFilter` filters by: the parameter with surrounding
   * whitespace stripped. A missing, empty or whitespace-only value cleans to
   * nothing, and so does one holding a NUL character, which the form rejects;
   * either way the filter is skipped.
   */
  function SlugValue(params: Params, name: string): (v: Option<string>)
    ensures v.Some? <==> Strip(Get(params, name)) != "" && '\0' !in Strip(Get(params, name))
    ensures v.Some? ==> v.value == Strip(Get(params, name))
  {
    var cleaned := Strip(Get(params, name));
    if cleaned == "" || '\0' in cleaned then None else Some(cleaned)
  }

  /** The post passes the `cat` (`category__slug`) and `tag` (`tags__slug`) filters. */
  ghost predicate PassesSlugFilters(p: Post, params: Params) {
    && (SlugValue(params, CategoryParamName).Some? ==> p.category.slug == SlugValue(params, CategoryParamName).value)
    && (SlugValue(params, TagParamName).Some? ==> PostQuerySet.TaggedWith(p, SlugValue(params, TagParamName).value))
  }

  /** The compiled test of the cleaned `cat` and `tag` values. */
  function SlugTest(category: Option<string>, tag: Option<string>): Post -> bool {
    (p: Post) => (category.Some? ==> p.category.slug == category.value)
              && (tag.Some? ==> PostQuerySet.TaggedWith(p, tag.value))
  }

  /**
   * `PostFilter(request.GET, queryset=qs).qs`: the input restricted to the
   * posts passing both slug filters, in input order and with multiplicity.
   */
  function PostFilter(qs: seq<Post>, params: Params): (r: seq<Post>)
    ensures forall p :: p in r <==> p in qs && PassesSlugFilters(p, params)
    ensures forall p :: multiset(r)[p] == if PassesSlugFilters(p, params) then multiset(qs)[p] else 0
    ensures IsSubsequence(r, qs)
    ensures SlugValue(params, CategoryParamName).None? && SlugValue(params, TagParamName).None? ==> r == qs
  {
    var test := SlugTest(SlugValue(params, CategoryParamName), SlugValue(params, TagParamName));
    assert forall p :: test(p) == PassesSlugFilters(p, params);
    var r := Filter(qs, test);
    if SlugValue(params, CategoryParamName).None? && SlugValue(params, TagParamName).None? then
      FilterAll(qs, test);
      r
    else r
  }

  /**
   * A slug padded with whitespace filters exactly like the bare slug, and a
   * whitespace-only value filters like no value at all.
   */
  lemma PaddedSlugFiltersAsBare(qs: seq<Post>, params: Params, name: string, before: string, slug: string, after: string)
    requires AllSpace(before) && AllSpace(after)
    requires slug == [] || (!IsSpace(slug[0]) && !IsSpace(slug[|slug| - 1]))
    ensures PostFilter(qs, params[name := before + slug + after]) == PostFilter(qs, params[name := slug])
  {
    var padded := params[name := before + slug + after];
    var bare := params[name := slug];
    PaddedStripsLikeBare(before, slug, after);
    SameStrippedValue(params, name, CategoryParamName, before + slug + after, slug);
    SameStrippedValue(params, name, TagParamName, before + slug + after, slug);
    SameSlugValuesSameFilter(qs, padded, bare);
  }

  lemma PaddedStripsLikeBare(before: string, slug: string, after: string)
    requires AllSpace(before) && AllSpace(after)
    requires slug == [] || (!IsSpace(slug[0]) && !IsSpace(slug[|slug| - 1]))
    ensures Strip(before + slug + after) == Strip(slug)
  {
    StripPadded(before, slug, after);
    assert [] + slug + [] == slug;
    StripPadded([], slug, []);
  }

  /** Setting one parameter to either of two values that strip alike leaves parameter `n` stripping alike. */
  lemma SameStrippedValue(params: Params, name: string, n: string, value: string, other: string)
    requires Strip(value) == Strip(other)
    ensures Strip(Get(params[name := value], n)) == Strip(Get(params[name := other], n))
  {
    if n != name {
      assert Get(params[name := value], n) == Get(params, n) == Get(params[name := other], n);
    }
  }

  lemma SameSlugValuesSameFilter(qs: seq<Post>, params: Params, other: Params)
    requires Strip(Get(params, CategoryParamName)) == Strip(Get(other, CategoryParamName))
    requires Strip(Get(params, TagParamName)) == Strip(Get(other, TagParamName))
    ensures PostFilter(qs, params) == PostFilter(qs, other)
  {
    assert SlugValue(params, CategoryParamName) == SlugValue(other, CategoryParamName);
    assert SlugValue(params, TagParamName) == SlugValue(other, TagParamName);
  }

  /**
   * `get_queryset`: heavy search on the incoming queryset with the raw
   * `search` parameter (missing means blank, and whitespace is not stripped);
   * only when it is blank do the slug filters apply. A failing search fails
   * the request.
   */
  function GetQueryset(qs: seq<Post>, params: Params, e: PostQuerySet.Engine)
    : (r: Result<seq<Post>, PostQuerySet.DatabaseError>)
    ensures Get(params, SearchParamName) != "" ==> r == PostQuerySet.HeavySearch(qs, Get(params, SearchParamName), e)
    ensures Get(params, SearchParamName) == "" ==> r == Ok(PostFilter(qs, params))
  {
    var search := Get(params, SearchParamName);
    match PostQuerySet.HeavySearch(qs, search, e)
    case Err(error) => Err(error)
    case Ok(searched) => if search == "" then Ok(PostFilter(searched, params)) else Ok(searched)
  }
}
