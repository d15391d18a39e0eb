/**
 * The project listing page: where each project links to, its cover image,
 * the list of projects shown (drafts removed, newest first), the left-hand
 * meta label and the React key of each card.
 *
 * A project's `date` is a string; `new Date(date)` turned into a number is
 * the parameter `stamp`, and the unseen `formatDate` of `utils/misc` is the
 * parameter `format`.
 */
module ProjectPage {
  import opened Wrappers
  import opened Strings
  import ProjectCard

  /** The fields of a project document that the page reads. */
  datatype Project = Project(
    id: Option<string>,
    slug: Option<string>,
    path: Option<string>,
    demo: Option<string>,
    images: Option<seq<string>>,
    draft: bool,
    date: string,
    duration: Option<string>)

  /** A JavaScript value of an optional string field is truthy when present and non-empty. */
  predicate Truthy(v: Option<string>) {
    v.Some? && v.value != ""
  }

  /**
   * `resolveHref`: the detail page under `path`, else the page under
   * `/project/` for `slug`, else the demo link, else the site root; the
   * first non-empty field wins.
   */
  function ResolveHref(p: Project): (r: string)
    ensures Truthy(p.path) ==> r == "/" + p.path.value
    ensures !Truthy(p.path) && Truthy(p.slug) ==> r == "/project/" + p.slug.value
    ensures !Truthy(p.path) && !Truthy(p.slug) && Truthy(p.demo) ==> r == p.demo.value
    ensures !Truthy(p.path) && !Truthy(p.slug) && !Truthy(p.demo) ==> r == "/"
  {
    if Truthy(p.path) then "/" + p.path.value
    else if Truthy(p.slug) then "/project/" + p.slug.value
    else if Truthy(p.demo) then p.demo.value
    else "/"
  }

  /** Unless the demo link is chosen, the target is a site-internal path. */
  lemma ResolveHrefInternal(p: Project)
    requires Truthy(p.path) || Truthy(p.slug) || !Truthy(p.demo)
    ensures StartsWith(ResolveHref(p), "/")
    ensures ResolveHref(p) != ""
  {
  }

  /** A non-empty path decides the target whatever the other fields say. */
  lemma ResolveHrefPathFirst(p: Project, q: Project)
    requires Truthy(p.path) && p.path == q.path
    ensures ResolveHref(p) == ResolveHref(q)
  {
  }

  const ImageDir := "/static/images/project/"

  /** `resolveImage`: the first file name under the project image directory, else the placeholder. */
  function ResolveImage(p: Project): (r: string)
    ensures p.images.Some? && |p.images.value| > 0 ==> r == ImageDir + p.images.value[0]
    ensures p.images.None? || p.images.value == [] ==> r == ProjectCard.Placeholder
    ensures StartsWith(r, "/static/")
  {
    if p.images.Some? && |p.images.value| > 0 then ImageDir + p.images.value[0]
    else ProjectCard.Placeholder
  }

  /** `.filter((p) => !p.draft)` */
  function NonDrafts(ps: seq<Project>): (r: seq<Project>)
    ensures forall i :: 0 <= i < |r| ==> !r[i].draft
    ensures forall p :: multiset(r)[p] == if p.draft then 0 else multiset(ps)[p]
    ensures |r| <= |ps|
  {
    if ps == [] then []
    else
      assert ps == [ps[0]] + ps[1..];
      (if ps[0].draft then [] else [ps[0]]) + NonDrafts(ps[1..])
  }

  /** Newest first: no project is followed by a newer one. */
  ghost predicate NewestFirst(ps: seq<Project>, stamp: string -> int) {
    forall i, j :: 0 <= i < j < |ps| ==> stamp(ps[i].date) >= stamp(ps[j].date)
  }

  /**
   * Places `p` into a list that is newest first, before the first project
   * that is not newer than it, so that projects with equal dates keep
   * their order.
   */
  function Insert(p: Project, ps: seq<Project>, stamp: string -> int): (r: seq<Project>)
    ensures multiset(r) == multiset(ps) + multiset{p}
    ensures |r| == |ps| + 1
    ensures r[0] == p || (|ps| > 0 && r[0] == ps[0])
  {
    if ps == [] || stamp(ps[0].date) <= stamp(p.date) then
      [p] + ps
    else
      assert ps == [ps[0]] + ps[1..];
      [ps[0]] + Insert(p, ps[1..], stamp)
  }

  /** Inserting into a newest-first list keeps it newest first. */
  lemma {:induction false} InsertNewestFirst(p: Project, ps: seq<Project>, stamp: string -> int)
    requires NewestFirst(ps, stamp)
    ensures NewestFirst(Insert(p, ps, stamp), stamp)
  {
    if ps == [] || stamp(ps[0].date) <= stamp(p.date) {
      ConsNewestFirst(p, ps, stamp);
    } else {
      TailNewestFirst(ps, stamp);
      InsertNewestFirst(p, ps[1..], stamp);
      ConsNewestFirst(ps[0], Insert(p, ps[1..], stamp), stamp);
    }
  }

  lemma TailNewestFirst(ps: seq<Project>, stamp: string -> int)
    requires NewestFirst(ps, stamp) && |ps| > 0
    ensures NewestFirst(ps[1..], stamp)
    ensures |ps| > 1 ==> stamp(ps[1].date) <= stamp(ps[0].date)
  {
    forall i, j | 0 <= i < j < |ps| - 1 ensures stamp(ps[1..][i].date) >= stamp(ps[1..][j].date) {
      assert ps[1..][i] == ps[i + 1] && ps[1..][j] == ps[j + 1];
    }
  }

  /** A project no older than the head of a newest-first list can go in front of it. */
  lemma ConsNewestFirst(x: Project, rest: seq<Project>, stamp: string -> int)
    requires NewestFirst(rest, stamp)
    requires |rest| > 0 ==> stamp(rest[0].date) <= stamp(x.date)
    ensures NewestFirst([x] + rest, stamp)
  {
    var r := [x] + rest;
    forall i, j | 0 <= i < j < |r| ensures stamp(r[i].date) >= stamp(r[j].date) {
      assert r[j] == rest[j - 1];
      if i > 0 {
        assert r[i] == rest[i - 1];
      } else if j > 1 {
        assert stamp(rest[0].date) >= stamp(rest[j - 1].date);
      }
    }
  }

  /** `.sort((a, b) => +new Date(b.date) - +new Date(a.date))` */
  function SortNewestFirst(ps: seq<Project>, stamp: string -> int): (r: seq<Project>)
    ensures NewestFirst(r, stamp)
    ensures multiset(r) == multiset(ps)
  {
    if ps == [] then []
    else
      assert ps == [ps[0]] + ps[1..];
      var sorted := SortNewestFirst(ps[1..], stamp);
      InsertNewestFirst(ps[0], sorted, stamp);
      Insert(ps[0], sorted, stamp)
  }

  /**
   * The projects shown: from the collection (none when it is missing),
   * drafts removed, newest first.
   */
  function Items(projects: Option<seq<Project>>, stamp: string -> int): (r: seq<Project>)
    ensures forall i :: 0 <= i < |r| ==> !r[i].draft
    ensures NewestFirst(r, stamp)
    ensures projects.None? ==> r == []
    ensures forall p :: multiset(r)[p] == if p.draft || projects.None? then 0 else multiset(projects.value)[p]
  {
    var ps := if projects.Some? then projects.value else [];
    var kept := NonDrafts(ps);
    var r := SortNewestFirst(kept, stamp);
    PermutationKeepsNoDrafts(kept, r);
    r
  }

  /** A reordering of a list without drafts has no drafts. */
  lemma PermutationKeepsNoDrafts(kept: seq<Project>, r: seq<Project>)
    requires forall i :: 0 <= i < |kept| ==> !kept[i].draft
    requires multiset(r) == multiset(kept)
    ensures forall i :: 0 <= i < |r| ==> !r[i].draft
  {
    forall i | 0 <= i < |r| ensures !r[i].draft {
      assert r[i] in multiset(kept);
    }
  }

  /** The page shows a project exactly when it is in the collection and not a draft. */
  lemma ItemsMembership(projects: seq<Project>, stamp: string -> int, p: Project)
    ensures p in Items(Some(projects), stamp) <==> p in projects && !p.draft
  {
    var r := Items(Some(projects), stamp);
    assert p in r <==> multiset(r)[p] > 0;
    assert p in projects <==> multiset(projects)[p] > 0;
  }

  /** `p.duration || formatDate(p.date)`: the duration unless it is missing or empty. */
  function MetaLeft(p: Project, format: string -> string): (r: string)
    ensures Truthy(p.duration) ==> r == p.duration.value
    ensures !Truthy(p.duration) ==> r == format(p.date)
  {
    if Truthy(p.duration) then p.duration.value else format(p.date)
  }

  /**
   * `p._id ?? p.slug ?? href`: only a missing field falls through, so an
   * empty identifier is still used.
   */
  function CardKey(p: Project): (r: string)
    ensures p.id.Some? ==> r == p.id.value
    ensures p.id.None? && p.slug.Some? ==> r == p.slug.value
    ensures p.id.None? && p.slug.None? ==> r == ResolveHref(p)
  {
    if p.id.Some? then p.id.value
    else if p.slug.Some? then p.slug.value
    else ResolveHref(p)
  }

  /** With neither `_id` nor `slug`, the key is the card's target, which is then never empty. */
  lemma CardKeyFallsToHref(p: Project)
    requires p.id.None? && p.slug.None?
    ensures CardKey(p) == ResolveHref(p) && CardKey(p) != ""
  {
    if !Truthy(p.path) && Truthy(p.demo) {
      assert ResolveHref(p) == p.demo.value;
    }
  }
}
