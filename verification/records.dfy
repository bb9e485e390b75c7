/**
 * The rows the blog's query layer works on: posts, their category and their
 * tags. Every entity has an integer primary key, a slug, a title, a publish
 * flag and a creation time, counted in whole days.
 */
module Records {

  /** A post category (a `PostCategory` row). */
  datatype Category = Category(pk: int, slug: string, title: string, published: bool, createdAt: int)

  /** A post tag (a `PostTag` row). */
  datatype Tag = Tag(pk: int, slug: string, title: string, published: bool, createdAt: int)

  /**
   * A post, carrying the category row its foreign key points to and the tag
   * rows of its many-to-many `tags` relation.
   */
  datatype Post = Post(
    pk: int,
    slug: string,
    title: string,
    description: string,
    published: bool,
    createdAt: int,
    category: Category,
    tags: set<Tag>)

  /** The foreign key of `p` points at `c`: the join `posts.category_id = category.id`. */
  predicate InCategory(p: Post, c: Category) {
    p.category.pk == c.pk
  }

  /** `t` is one of the tags of `p`: the many-to-many join on tag ids. */
  predicate HasTag(p: Post, t: Tag) {
    exists u :: u in p.tags && u.pk == t.pk
  }

  /** Projections used as sort keys and exclusion keys. */
  function PostCreated(p: Post): int { p.createdAt }
  function PostPk(p: Post): int { p.pk }
  function TagPk(t: Tag): int { t.pk }
  function CategoryCreated(c: Category): int { c.createdAt }
  function CategoryPk(c: Category): int { c.pk }
}
