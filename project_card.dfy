/**
 * The project card's helpers: the cover image, public-path normalisation,
 * the project's links as a list, the first GitHub link and its owner and
 * repository, and the card's target. `new URL(...)` is a parameter: it
 * yields the URL's `host`, `hostname` and `pathname`, or `None` when it
 * throws.
 */
module ProjectCard {
  import opened Wrappers
  import opened Strings

  const Placeholder := "/static/placeholder-16x9.png"

  /** An entry of `images`: a string, `null`, an object (with its `src` when that is a string), or anything else. */
  datatype ImageEntry = ImageText(s: string) | NullImage | ImageObject(src: Option<string>) | OtherImage

  /** `normalizePublicPath`: the placeholder for an empty path, otherwise the path with a leading '/'. */
  function NormalizePublicPath(p: string): (r: string)
    ensures StartsWith(r, "/")
    ensures p == "" ==> r == Placeholder
    ensures p != "" && StartsWith(p, "/") ==> r == p
    ensures p != "" && !StartsWith(p, "/") ==> r == "/" + p
  {
    if p == "" then Placeholder
    else if StartsWith(p, "/") then p
    else "/" + p
  }

  /** Normalising twice is normalising once. */
  lemma NormalizeIdempotent(p: string)
    ensures NormalizePublicPath(NormalizePublicPath(p)) == NormalizePublicPath(p)
  {
  }

  /**
   * `resolveImage`: the first entry's path (a string, or an object's
   * string `src`), normalised; the placeholder when the list is missing or
   * empty or its first entry has no usable path. A `null` first entry
   * makes the `in` test throw.
   */
  function ResolveImage(images: Option<seq<ImageEntry>>): (r: Result<string>)
    ensures r.Failure? <==> images.Some? && |images.value| > 0 && images.value[0].NullImage?
    ensures r.Success? ==> StartsWith(r.value, "/")
    ensures images.None? || images.value == [] ==> r == Success(Placeholder)
    ensures images.Some? && |images.value| > 0 && images.value[0].ImageText? ==>
      r == Success(NormalizePublicPath(images.value[0].s))
    ensures images.Some? && |images.value| > 0 && images.value[0].ImageObject? ==>
      r == Success(if images.value[0].src.Some? then NormalizePublicPath(images.value[0].src.value) else Placeholder)
    ensures images.Some? && |images.value| > 0 && images.value[0].OtherImage? ==> r == Success(Placeholder)
  {
    if images.Some? && |images.value| > 0 then
      match images.value[0]
      case ImageText(s) => Success(NormalizePublicPath(s))
      case NullImage => Failure("TypeError: Cannot use 'in' operator to search for 'src' in null")
      case ImageObject(src) => Success(if src.Some? then NormalizePublicPath(src.value) else Placeholder)
      case OtherImage => Success(Placeholder)
    else Success(Placeholder)
  }

  /** What `new URL(u)` exposes. */
  datatype Url = Url(host: string, hostname: string, pathname: string)

  datatype SimpleLink = SimpleLink(title: string, url: string)

  /**
   * An entry of an array of links: a falsy value other than the empty
   * string, a string, an object with a `url` (its truthy string `title`,
   * if any, and `String(url)`), or anything else.
   */
  datatype LinkItem = Falsy | LinkText(s: string) | LinkObject(title: Option<string>, url: string) | OtherItem

  /** The `links` field: absent or falsy, an array, a record from title to URL, a string, or anything else. */
  datatype Links = NoLinks | LinkArray(items: seq<LinkItem>) | LinkRecord(entries: seq<(string, string)>)
    | LinkString(s: string) | OtherLinks

  /** `safeHost`: the host, or `None` when the URL does not parse. */
  function SafeHost(u: string, parse: string -> Option<Url>): (h: Option<string>)
    ensures h.Some? <==> parse(u).Some?
    ensures h.Some? ==> h.value == parse(u).value.host
  {
    match parse(u)
    case None => None
    case Some(url) => Some(url.host)
  }

  /** `a || b` on strings. */
  function Or(a: string, b: string): string {
    if a != "" then a else b
  }

  /** The map step of `toLinkArray` on one entry; a string whose URL does not parse throws. */
  function LinkOf(item: LinkItem, parse: string -> Option<Url>): (r: Result<Option<SimpleLink>>)
    ensures r.Failure? <==> item.LinkText? && item.s != "" && parse(item.s).None?
    ensures r.Success? && r.value.Some? ==> item.LinkText? || item.LinkObject?
    ensures item.LinkText? && r.Success? && r.value.Some? ==>
      parse(item.s).Some? && r.value.value == SimpleLink(parse(item.s).value.host, item.s)
    ensures item.LinkObject? ==> r.Success? && r.value.Some? && r.value.value.url == item.url && r.value.value.title != ""
    ensures item.LinkObject? && item.title.Some? && item.title.value != "" ==> r.value.value.title == item.title.value
    ensures item.LinkObject? && (item.title.None? || item.title.value == "") ==>
      r.value.value.title
        == if parse(item.url).Some? && parse(item.url).value.host != "" then parse(item.url).value.host else "Link"
    ensures (item.Falsy? || item.OtherItem? || (item.LinkText? && item.s == "")) ==> r == Success(None)
  {
    match item
    case Falsy => Success(None)
    case OtherItem => Success(None)
    case LinkText(s) =>
      if s == "" then Success(None)
      else
        (match parse(s)
         case None => Failure("TypeError: Invalid URL")
         case Some(u) => Success(Some(SimpleLink(u.host, s))))
    case LinkObject(title, url) =>
      var t := if title.Some? then title.value else "";
      var host := SafeHost(url, parse);
      Success(Some(SimpleLink(Or(t, Or(host.GetOr(""), "Link")), url)))
  }

  /** `links.map(...)`: every entry mapped in order; the first entry that throws aborts the whole map. */
  function MapLinks(items: seq<LinkItem>, parse: string -> Option<Url>): (r: Result<seq<Option<SimpleLink>>>)
    ensures r.Failure? <==> exists i :: 0 <= i < |items| && LinkOf(items[i], parse).Failure?
    ensures r.Success? ==>
      && |r.value| == |items|
      && forall i :: 0 <= i < |items| ==> LinkOf(items[i], parse) == Success(r.value[i])
    decreases |items|
  {
    if items == [] then Success([])
    else
      match LinkOf(items[0], parse)
      case Failure(e) => Failure(e)
      case Success(first) =>
        var rest := MapLinks(items[1..], parse);
        assert forall i :: 1 <= i < |items| ==> items[i] == items[1..][i - 1];
        if rest.Failure? then
          var i :| 0 <= i < |items[1..]| && LinkOf(items[1..][i], parse).Failure?;
          assert LinkOf(items[i + 1], parse).Failure?;
          Failure(rest.error)
        else
          Success([first] + rest.value)
  }

  /** `.filter(Boolean)` on the mapped entries: the links, in order, without the empty slots. */
  function Somes<T>(xs: seq<Option<T>>): (r: seq<T>)
    ensures |r| <= |xs|
  {
    if xs == [] then []
    else (if xs[0].Some? then [xs[0].value] else []) + Somes(xs[1..])
  }

  /** Every position one further on. */
  function Shift(idx: seq<nat>): (r: seq<nat>)
    ensures |r| == |idx| && forall j :: 0 <= j < |idx| ==> r[j] == idx[j] + 1
    ensures StrictlyIncreasing(idx) ==> StrictlyIncreasing(r)
    ensures 0 !in r
    ensures forall i: nat :: i in idx ==> i + 1 in r
  {
    seq(|idx|, j requires 0 <= j < |idx| => idx[j] + 1)
  }

  predicate StrictlyIncreasing(idx: seq<nat>) {
    forall a, b :: 0 <= a < b < |idx| ==> idx[a] < idx[b]
  }

  /** The positions `idx` pick out `ys` from `xs`, and every other position of `xs` is empty. */
  ghost predicate Picks<T>(xs: seq<Option<T>>, idx: seq<nat>, ys: seq<T>) {
    && |idx| == |ys|
    && StrictlyIncreasing(idx)
    && (forall j :: 0 <= j < |idx| ==> idx[j] < |xs| && xs[idx[j]].Some? && xs[idx[j]].value == ys[j])
    && (forall i :: 0 <= i < |xs| && i !in idx ==> xs[i].None?)
  }

  /** A choice of positions for the tail carries over, shifted by one, to the whole sequence. */
  lemma PicksShift<T>(xs: seq<Option<T>>, idx: seq<nat>, ys: seq<T>)
    requires |xs| > 0 && Picks(xs[1..], idx, ys)
    ensures forall j :: 0 <= j < |idx| ==> Shift(idx)[j] < |xs| && xs[Shift(idx)[j]].Some? && xs[Shift(idx)[j]].value == ys[j]
    ensures forall i :: 1 <= i < |xs| && i !in Shift(idx) ==> xs[i].None?
  {
    var shifted := Shift(idx);
    forall j | 0 <= j < |idx| ensures shifted[j] < |xs| && xs[shifted[j]].Some? && xs[shifted[j]].value == ys[j] {
      assert xs[shifted[j]] == xs[1..][idx[j]];
    }
    forall i | 1 <= i < |xs| && i !in shifted ensures xs[i].None? {
      assert xs[i] == xs[1..][i - 1];
    }
  }

  /** An empty head: the shifted positions pick the same values. */
  lemma PicksSkip<T>(xs: seq<Option<T>>, idx: seq<nat>, ys: seq<T>)
    requires |xs| > 0 && xs[0].None? && Picks(xs[1..], idx, ys)
    ensures Picks(xs, Shift(idx), ys)
  {
    PicksShift(xs, idx, ys);
  }

  /** A present head: position 0 followed by the shifted positions picks it and the rest. */
  lemma PicksKeep<T>(xs: seq<Option<T>>, idx: seq<nat>, ys: seq<T>)
    requires |xs| > 0 && xs[0].Some? && Picks(xs[1..], idx, ys)
    ensures Picks(xs, [0] + Shift(idx), [xs[0].value] + ys)
  {
    ConsIncreasing(Shift(idx));
    KeepValues(xs, idx, ys);
    KeepRest(xs, idx, ys);
  }

  lemma KeepValues<T>(xs: seq<Option<T>>, idx: seq<nat>, ys: seq<T>)
    requires |xs| > 0 && xs[0].Some? && |idx| == |ys|
    requires forall j :: 0 <= j < |idx| ==> idx[j] < |xs[1..]| && xs[1..][idx[j]].Some? && xs[1..][idx[j]].value == ys[j]
    ensures var all, zs := [0] + Shift(idx), [xs[0].value] + ys;
      forall j :: 0 <= j < |all| ==> all[j] < |xs| && xs[all[j]].Some? && xs[all[j]].value == zs[j]
  {
    var shifted := Shift(idx);
    var all := [0] + shifted;
    var zs := [xs[0].value] + ys;
    var tail := xs[1..];
    forall j | 0 <= j < |all| ensures all[j] < |xs| && xs[all[j]].Some? && xs[all[j]].value == zs[j] {
      if j > 0 {
        var k := j - 1;
        assert all[j] == shifted[k] == idx[k] + 1;
        assert zs[j] == ys[k];
        assert idx[k] < |tail| && tail[idx[k]].Some? && tail[idx[k]].value == ys[k];
        assert xs[idx[k] + 1] == tail[idx[k]];
      }
    }
  }

  lemma KeepRest<T>(xs: seq<Option<T>>, idx: seq<nat>, ys: seq<T>)
    requires |xs| > 0 && Picks(xs[1..], idx, ys)
    ensures forall i :: 0 <= i < |xs| && i !in [0] + Shift(idx) ==> xs[i].None?
  {
    PicksShift(xs, idx, ys);
    var shifted := Shift(idx);
    forall i | 0 <= i < |xs| && i !in [0] + shifted ensures xs[i].None? {
      InCons(0, shifted, i);
    }
  }

  /** A leading zero keeps positions that are all at least one strictly increasing. */
  lemma ConsIncreasing(s: seq<nat>)
    requires StrictlyIncreasing(s) && 0 !in s
    ensures StrictlyIncreasing([0] + s)
  {
    var all := [0] + s;
    forall a, b | 0 <= a < b < |all| ensures all[a] < all[b] {
      assert all[b] == s[b - 1];
      if a > 0 {
        assert all[a] == s[a - 1];
      } else {
        assert s[b - 1] in s;
      }
    }
  }

  lemma InCons(x: nat, s: seq<nat>, i: nat)
    ensures i in [x] + s <==> i == x || i in s
  {
  }

  /**
   * `Somes` keeps exactly the present values, in order: the result is
   * read off a strictly increasing choice of positions, and every
   * position not chosen is empty.
   */
  lemma {:induction false} SomesIsFilter<T>(xs: seq<Option<T>>) returns (idx: seq<nat>)
    ensures Picks(xs, idx, Somes(xs))
    decreases |xs|
  {
    if xs == [] {
      return [];
    }
    var ys := Somes(xs[1..]);
    var restIdx := SomesIsFilter(xs[1..]);
    if xs[0].Some? {
      assert Somes(xs) == [xs[0].value] + ys;
      PicksKeep(xs, restIdx, ys);
      idx := [0] + Shift(restIdx);
    } else {
      assert Somes(xs) == ys;
      PicksSkip(xs, restIdx, ys);
      idx := Shift(restIdx);
    }
  }

  /** `links.map(...).filter(Boolean)` */
  function MapFilter(items: seq<LinkItem>, parse: string -> Option<Url>): (r: Result<seq<SimpleLink>>)
    ensures r.Failure? <==> exists i :: 0 <= i < |items| && LinkOf(items[i], parse).Failure?
    ensures r.Success? ==> |r.value| <= |items|
  {
    match MapLinks(items, parse)
    case Failure(e) => Failure(e)
    case Success(mapped) => Success(Somes(mapped))
  }

  /**
   * On an array, `toLinkArray` keeps exactly the entries that map to a
   * link, in their original order: the result is the image of a strictly
   * increasing choice of positions, and every position left out maps to
   * nothing.
   */
  lemma LinkArrayIsFilter(items: seq<LinkItem>, parse: string -> Option<Url>) returns (idx: seq<nat>)
    requires MapFilter(items, parse).Success?
    ensures |idx| == |MapFilter(items, parse).value|
    ensures StrictlyIncreasing(idx)
    ensures forall j :: 0 <= j < |idx| ==>
      idx[j] < |items| && LinkOf(items[idx[j]], parse) == Success(Some(MapFilter(items, parse).value[j]))
    ensures forall i :: 0 <= i < |items| && i !in idx ==> LinkOf(items[i], parse) == Success(None)
  {
    var mapped := MapLinks(items, parse).value;
    idx := SomesIsFilter(mapped);
  }

  /** `toLinkArray` */
  function ToLinkArray(links: Links, parse: string -> Option<Url>): (r: Result<seq<SimpleLink>>)
    ensures links.NoLinks? || links.OtherLinks? || links == LinkString("") ==> r == Success([])
    ensures links.LinkRecord? ==>
      && r.Success? && |r.value| == |links.entries|
      && forall i :: 0 <= i < |links.entries| ==> r.value[i] == SimpleLink(links.entries[i].0, links.entries[i].1)
    ensures links.LinkString? && links.s != "" ==>
      r == Success([SimpleLink(Or(SafeHost(links.s, parse).GetOr(""), "Link"), links.s)])
    ensures links.LinkArray? ==> r == MapFilter(links.items, parse)
  {
    match links
    case NoLinks => Success([])
    case OtherLinks => Success([])
    case LinkArray(items) => MapFilter(items, parse)
    case LinkRecord(entries) => Success(seq(|entries|, i requires 0 <= i < |entries| => SimpleLink(entries[i].0, entries[i].1)))
    case LinkString(s) =>
      if s == "" then Success([])
      else Success([SimpleLink(Or(SafeHost(s, parse).GetOr(""), "Link"), s)])
  }

  /** `url.includes('github.com')` */
  predicate MentionsGitHub(url: string) {
    Contains(url, "github.com")
  }

  /** `getGithubUrl`: the URL of the first link that mentions github.com. */
  function GetGithubUrl(links: seq<SimpleLink>): (r: Option<string>)
    ensures r.None? <==> forall i :: 0 <= i < |links| ==> !MentionsGitHub(links[i].url)
    ensures r.Some? ==> exists i ::
      && 0 <= i < |links| && links[i].url == r.value
      && MentionsGitHub(links[i].url)
      && forall j :: 0 <= j < i ==> !MentionsGitHub(links[j].url)
  {
    if links == [] then None
    else if MentionsGitHub(links[0].url) then Some(links[0].url)
    else
      var rest := GetGithubUrl(links[1..]);
      FirstAfterHead(links, rest);
      rest
  }

  /** A link found in the tail, behind a head that does not mention github.com, is the first in the whole list. */
  lemma FirstAfterHead(links: seq<SimpleLink>, rest: Option<string>)
    requires |links| > 0 && !MentionsGitHub(links[0].url)
    requires rest.None? <==> forall i :: 0 <= i < |links| - 1 ==> !MentionsGitHub(links[1..][i].url)
    requires rest.Some? ==> exists i ::
      && 0 <= i < |links| - 1 && links[1..][i].url == rest.value
      && MentionsGitHub(links[1..][i].url)
      && forall j :: 0 <= j < i ==> !MentionsGitHub(links[1..][j].url)
    ensures rest.None? <==> forall i :: 0 <= i < |links| ==> !MentionsGitHub(links[i].url)
    ensures rest.Some? ==> exists i ::
      && 0 <= i < |links| && links[i].url == rest.value
      && MentionsGitHub(links[i].url)
      && forall j :: 0 <= j < i ==> !MentionsGitHub(links[j].url)
  {
    assert forall i :: 1 <= i < |links| ==> links[i] == links[1..][i - 1];
    if rest.Some? {
      var i :| 0 <= i < |links| - 1 && links[1..][i].url == rest.value
        && MentionsGitHub(links[1..][i].url)
        && forall j :: 0 <= j < i ==> !MentionsGitHub(links[1..][j].url);
      assert links[i + 1].url == rest.value;
    }
  }

  datatype Repo = Repo(owner: string, repo: string)

  /** `.replace(/\.git$/, '')`: one trailing ".git" removed. */
  function StripGit(s: string): (r: string)
    ensures EndsWith(s, ".git") ==> r + ".git" == s
    ensures !EndsWith(s, ".git") ==> r == s
  {
    if EndsWith(s, ".git") then s[..|s| - 4] else s
  }

  /** The non-empty segments of a pathname: `pathname.split('/').filter(Boolean)`. */
  function Segments(pathname: string): seq<string> {
    NonEmpty(Split(pathname, "/"))
  }

  /**
   * `parseGithubRepo`: the first two non-empty path segments, ".git"
   * stripped from the second, when the hostname mentions github.com; no
   * result for a missing or empty URL, an unparsable one, another host,
   * or fewer than two segments.
   */
  function ParseGithubRepo(url: Option<string>, parse: string -> Option<Url>): (r: Option<Repo>)
    ensures url.None? || url.value == "" || parse(url.value).None? ==> r.None?
    ensures r.Some? ==>
      var u := parse(url.value).value;
      && Contains(u.hostname, "github.com")
      && |Segments(u.pathname)| >= 2
      && r.value.owner == Segments(u.pathname)[0]
      && r.value.repo == StripGit(Segments(u.pathname)[1])
    ensures url.Some? && url.value != "" && parse(url.value).Some? ==>
      var u := parse(url.value).value;
      r.None? <==> !Contains(u.hostname, "github.com") || |Segments(u.pathname)| < 2
  {
    if url.None? || url.value == "" then None
    else
      match parse(url.value)
      case None => None
      case Some(u) =>
        var parts := Segments(u.pathname);
        if Contains(u.hostname, "github.com") && |parts| >= 2 then Some(Repo(parts[0], StripGit(parts[1])))
        else None
  }

  /** Every non-empty segment of a pathname is free of '/'. */
  lemma SegmentsHaveNoSlash(pathname: string, k: nat)
    requires k < |Segments(pathname)|
    ensures Segments(pathname)[k] != "" && '/' !in Segments(pathname)[k]
  {
    var pieces := Split(pathname, "/");
    var p := Segments(pathname)[k];
    assert p in Segments(pathname);
    var i :| 0 <= i < |pieces| && pieces[i] == p;
    SplitPiecesFree(pathname, "/", i);
    ContainsChar(p, '/');
  }

  /** A found owner is non-empty, and neither owner nor repository holds a '/'. */
  lemma RepoHasNoSlash(url: Option<string>, parse: string -> Option<Url>)
    requires ParseGithubRepo(url, parse).Some?
    ensures var r := ParseGithubRepo(url, parse).value;
      r.owner != "" && '/' !in r.owner && '/' !in r.repo
  {
    var u := parse(url.value).value;
    var parts := Segments(u.pathname);
    SegmentsHaveNoSlash(u.pathname, 0);
    SegmentsHaveNoSlash(u.pathname, 1);
    var r := StripGit(parts[1]);
    assert forall i :: 0 <= i < |r| ==> r[i] == parts[1][i];
  }

  lemma RegroupPath(owner: string, repo: string, tail: string)
    ensures "/" + owner + "/" + repo + tail == "" + "/" + (owner + "/" + (repo + tail))
  {
  }

  /** A repository name followed by nothing or by "/..." splits with the name first. */
  lemma SplitRepoTail(repo: string, tail: string)
    requires '/' !in repo
    requires tail == "" || tail[0] == '/'
    ensures var later := Split(repo + tail, "/"); |later| >= 1 && later[0] == repo
  {
    if tail == "" {
      assert repo + tail == repo;
      SplitFree(repo, "/");
    } else {
      assert repo + tail == repo + "/" + tail[1..];
      SplitCons(repo, "/", tail[1..]);
    }
  }

  /** The segments of "/owner/repo" followed by nothing or by "/...". */
  lemma {:induction false} SegmentsOfRepoPath(owner: string, repo: string, tail: string)
    requires owner != "" && repo != "" && '/' !in owner && '/' !in repo
    requires tail == "" || tail[0] == '/'
    ensures var s := Segments("/" + owner + "/" + repo + tail); |s| >= 2 && s[0] == owner && s[1] == repo
  {
    var rt := repo + tail;
    var path := "/" + owner + "/" + repo + tail;
    RegroupPath(owner, repo, tail);
    SplitCons("", "/", owner + "/" + rt);
    SplitCons(owner, "/", rt);
    SplitRepoTail(repo, tail);
    var later := Split(rt, "/");
    assert Split(path, "/") == [""] + ([owner] + later);
    NonEmptyCons("", [owner] + later);
    NonEmptyCons(owner, later);
    assert later == [repo] + later[1..];
    NonEmptyCons(repo, later[1..]);
  }

  /**
   * For "/owner/repo" followed by nothing or by a further "/...", the
   * owner and the repository (with ".git" stripped) come back.
   */
  lemma ParseGithubRepoRoundTrip(url: string, parse: string -> Option<Url>,
                                 host: string, owner: string, repo: string, tail: string)
    requires url != "" && parse(url) == Some(Url(host, host, "/" + owner + "/" + repo + tail))
    requires Contains(host, "github.com")
    requires owner != "" && repo != "" && '/' !in owner && '/' !in repo
    requires tail == "" || tail[0] == '/'
    ensures ParseGithubRepo(Some(url), parse) == Some(Repo(owner, StripGit(repo)))
  {
    SegmentsOfRepoPath(owner, repo, tail);
  }

  /** The card's target: the canonical URL, else the first link's URL, else the project's path. */
  function CardHref(canonicalUrl: Option<string>, links: seq<SimpleLink>, path: string): (href: string)
    ensures canonicalUrl.Some? && canonicalUrl.value != "" ==> href == canonicalUrl.value
    ensures (canonicalUrl.None? || canonicalUrl.value == "") && |links| > 0 && links[0].url != "" ==>
      href == links[0].url
    ensures (canonicalUrl.None? || canonicalUrl.value == "") && (|links| == 0 || links[0].url == "") ==>
      href == path
  {
    Or(canonicalUrl.GetOr(""), Or(if |links| > 0 then links[0].url else "", path))
  }
}
