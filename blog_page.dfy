/**
 * The blog index: the first page of posts and the pagination summary.
 * The sorted post list (`allCoreContent(sortPosts(allBlogs))`) and
 * `POSTS_PER_PAGE`, a positive constant defined outside this page, are
 * parameters.
 */
module BlogPage {
  import opened Slices

  datatype Pagination = Pagination(currentPage: nat, totalPages: nat)

  /** `posts.slice(perPage * (page - 1), perPage * page)` for a page number from 1. */
  function PageOf<T>(posts: seq<T>, perPage: nat, page: nat): (r: seq<T>)
    requires perPage > 0 && page >= 1
    ensures perPage * page <= |posts| ==> r == posts[perPage * (page - 1)..perPage * page]
    ensures perPage * (page - 1) <= |posts| < perPage * page ==> r == posts[perPage * (page - 1)..]
    ensures |posts| <= perPage * (page - 1) ==> r == []
  {
    Slice(posts, perPage * (page - 1), perPage * page)
  }

  /** The page the index shows first. */
  const FirstPage := 1

  /** `initialDisplayPosts`: the first `perPage` posts, or all of them when there are fewer. */
  function InitialDisplayPosts<T>(posts: seq<T>, perPage: nat): (r: seq<T>)
    requires perPage > 0
    ensures |r| == if |posts| < perPage then |posts| else perPage
    ensures r == posts[..|r|]
  {
    PageOf(posts, perPage, FirstPage)
  }

  /** `pagination` */
  function PaginationOf<T>(posts: seq<T>, perPage: nat): (p: Pagination)
    requires perPage > 0
    ensures p.currentPage == FirstPage
    ensures p.totalPages * perPage >= |posts|
    ensures p.totalPages > 0 ==> (p.totalPages - 1) * perPage < |posts|
    ensures p.totalPages == 0 <==> posts == []
  {
    Pagination(FirstPage, CeilDiv(|posts|, perPage))
  }

  /** The page window around `i` starts at the multiple of `d` below it. */
  lemma DivWindow(i: nat, d: nat)
    requires d > 0
    ensures d * (i / d) <= i < d * (i / d) + d
  {
  }

  lemma MulMonotone(a: nat, b: nat, c: nat)
    requires a <= b
    ensures a * c <= b * c
  {
  }

  /** Every post is on some page from 1 to `totalPages`, at its place within that page. */
  lemma PagesCoverPosts<T>(posts: seq<T>, perPage: nat, i: nat)
    requires perPage > 0 && i < |posts|
    ensures var page := i / perPage + 1;
      && 1 <= page <= PaginationOf(posts, perPage).totalPages
      && i - perPage * (page - 1) < |PageOf(posts, perPage, page)|
      && PageOf(posts, perPage, page)[i - perPage * (page - 1)] == posts[i]
  {
    var q := i / perPage;
    var page := q + 1;
    var total := PaginationOf(posts, perPage).totalPages;
    DivWindow(i, perPage);
    var lo := perPage * q;
    assert perPage * (page - 1) == lo;
    assert perPage * page == lo + perPage;
    if total <= q {
      MulMonotone(total, q, perPage);
    }
    assert q < total;
  }

  /** The last page is never empty (unless there are no posts, and then there are no pages). */
  lemma LastPageNonEmpty<T>(posts: seq<T>, perPage: nat)
    requires perPage > 0 && posts != []
    ensures PaginationOf(posts, perPage).totalPages >= 1
    ensures |PageOf(posts, perPage, PaginationOf(posts, perPage).totalPages)| > 0
  {
    var total := PaginationOf(posts, perPage).totalPages;
    assert (total - 1) * perPage == perPage * (total - 1);
  }

  /** No page after the last one holds a post. */
  lemma NoPageBeyond<T>(posts: seq<T>, perPage: nat, page: nat)
    requires perPage > 0 && page > PaginationOf(posts, perPage).totalPages
    ensures PageOf(posts, perPage, page) == []
  {
    var total := PaginationOf(posts, perPage).totalPages;
    MulMonotone(total, page - 1, perPage);
    assert perPage * (page - 1) == (page - 1) * perPage;
  }
}
