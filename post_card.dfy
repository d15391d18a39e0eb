/**
 * The blog post card in the grid view: its cover image, its reading time
 * in whole minutes and the target of its two links. `process.env.BASE_PATH`
 * is the parameter `basePath` (`None` when it is not set).
 */
module PostCard {
  import opened Wrappers
  import opened Strings
  import Link

  /** `SITE_METADATA.socialBanner` */
  function SocialBanner(basePath: Option<string>): (r: string)
    ensures EndsWith(r, "/static/images/twitter-card.jpeg")
    ensures basePath.None? || basePath.value == "" ==> r == "/static/images/twitter-card.jpeg"
  {
    var prefix := if basePath.Some? then basePath.value else "";
    prefix + "/static/images/twitter-card.jpeg"
  }

  /** `cover`: the first image when there is one, otherwise the site's social banner. */
  function Cover(images: Option<seq<string>>, basePath: Option<string>): (r: string)
    ensures images.Some? && |images.value| > 0 ==> r == images.value[0]
    ensures images.None? || images.value == [] ==> r == SocialBanner(basePath)
  {
    if images.Some? && |images.value| > 0 then images.value[0] else SocialBanner(basePath)
  }

  /** `Math.ceil` */
  function Ceil(x: real): (n: int)
    ensures n as real - 1.0 < x <= n as real
  {
    -((-x).Floor)
  }

  /**
   * `Math.max(1, Math.ceil(readingTime.minutes || 1))`, with `None` for a
   * reading time that is not a number (falsy, like 0).
   */
  function Minutes(reading: Option<real>): (m: int)
    ensures m >= 1
    ensures reading.Some? && reading.value > 0.0 ==> m == Ceil(reading.value)
    ensures reading.Some? && reading.value > 0.0 ==> m as real - 1.0 < reading.value <= m as real
  {
    var x := if reading.Some? && reading.value != 0.0 then reading.value else 1.0;
    var c := Ceil(x);
    if 1 < c then c else 1
  }

  /** A zero or missing reading time shows one minute. */
  lemma NoReadingTimeIsOneMinute()
    ensures Minutes(None) == 1
    ensures Minutes(Some(0.0)) == 1
  {
  }

  /** A fractional reading time is rounded up: 2.3 minutes show as 3. */
  lemma RoundsUp()
    ensures Minutes(Some(2.3)) == 3
  {
    assert Ceil(2.3) == 3;
  }

  /** The target of the cover link and of the title link. */
  function PostHref(path: string): (r: string)
    ensures StartsWith(r, "/") && r[1..] == path
  {
    "/" + path
  }

  /** Both links of a card go through the site's router. */
  lemma PostHrefInternal(path: string)
    ensures Link.Classify(PostHref(path)) == Link.Internal
  {
  }
}
