# fatihua.my.id — a verified model of the site's logic

This project models, in Dafny, the logic inside the portfolio and blog
site at fatihua.my.id (a Next.js/React site). It covers:

- **The emoji reaction bar of a blog post.** Four reaction kinds each have a count. A click raises a count, capped at 10. The button shows the remote baseline plus this browser's clicks minus the clicks restored from local storage. Leaving the button schedules a save, which sends the reconciled total and writes the counts back to local storage under `type/slug`.
- **Date formatting and durations.** A date prints as "day Mon year". The years and months between two dates print with a borrow and with plural units.
- **The project card and the project page.**
  - The cover image, and normalising a path into a public path.
  - The project's links as a list, the first GitHub link, and the owner and repository it names.
  - The card's target.
  - The listing: drafts removed, newest first, the left-hand meta label and each card's React key.
- **The banner credit of a blog post.** A banner string of the form `path/to/file__author__filename.ext` is taken apart into its pieces.
- **The image wrapper.** It detects SVG sources and forwards `quality` only to raster images.
- **The link wrapper.** It classifies a target as internal, in-page anchor or external. It lifts a child `<a>`'s props and content, and merges class names.
- **The skills marquee.** Its entries are cut into three rows that scroll in alternating directions.
- **The blog index.** The first page of posts, and the page count.
- **The post card.** Its cover fallback, reading-time minutes and link target.
- **The seeded generator of the triangle background.** A xorshift32 state, and the bounded jitter that uses it.
- **The landing-page terminal animation.** A tick runs along a fixed timeline, and what is on screen is read off the tick.

The modules map onto the source's files:

| module | models |
|---|---|
| `Reactions` | components/blog/reactions.tsx |
| `TimeUtils` | utils/timeUtils.ts |
| `ProjectCard` | components/cards/project.tsx |
| `ProjectPage` | app/project/page.tsx |
| `Banner` | components/blog/banner.tsx |
| `NextImage` | components/ui/next-image.tsx |
| `Link` | components/ui/link.tsx |
| `SkillSection` | app/about/_section/skillSection.tsx |
| `BlogPage` | app/blog/page.tsx |
| `PostCard` | components/blog/post-card-grid-view.tsx |
| `TriPolygon` | components/ui/TriPolygonBackground.tsx |
| `Animations` | components/animations/animations.tsx |

The modules `Wrappers` (`Option`, `Result`), `Strings` (JavaScript's `startsWith`, `endsWith`, `includes`, `indexOf`, `split`, `join`, `trim`, the ASCII case mappings and integer printing), `Props` (JSX props as maps, spreads as map union, rest destructuring) and `Slices` (`Array.prototype.slice`, `Math.ceil` of a quotient) hold the JavaScript built-ins the components rely on.

The state the source changes in place is modelled by classes:

- `Reactions.ReactionBar`:
  - the `initialReactions` and `reactions` maps;
  - the loading flag;
  - one `reacting` flag per kind;
  - local storage;
  - the scheduled saves.
- `TriPolygon.Rng`: the generator's captured state.
- `Animations.Terminal`: the tick, the reduced-motion preference and whether an interval runs.

The rest is pure functions, each with lemmas about what it computes.

Inputs that come from outside the components are taken as parameters:

- URL parsing with `new URL` becomes a function `string -> Option<Url>`, with `None` where it throws.
- Date parsing: a date arrives as its local-time fields, or as `None` for an invalid date.
- The numeric timestamp of a date, used by the project sort.
- `Number()` coercion: a value together with whether it is a finite number.
- Local storage: a map that is a field of the reaction bar.
- The remote statistics.
- The unseen helpers `formatDate`, `capitalize(kebabCaseToPlainText(...))` and `BASE_PATH`.

## Model

| member | source | states |
|---|---|---|
| Reactions.Key | components/blog/reactions.tsx:21-26 | each kind is stored and sent under one of the four property names |
| Reactions.KeyInjective | components/blog/reactions.tsx:21-26 | different kinds have different property names |
| Reactions.ZeroMap | components/blog/reactions.tsx:14-19 | the initial map has a count of 0 for every kind |
| Reactions.ToNum | components/blog/reactions.tsx:29-32 | a finite number is returned as it is; anything else gives the fallback |
| Reactions.Decode | components/blog/reactions.tsx:51-65 | an entry that does not parse gives no result (the `catch`); a missing entry gives all zeros; a parsed entry gives each kind's numeric property, or 0 when it is missing or not numeric |
| Reactions.Encode | components/blog/reactions.tsx:76 | the stored entry has exactly the four kind properties |
| Reactions.DecodeEncode | components/blog/reactions.tsx:53-76 | a load after a save restores exactly the saved counts |
| Reactions.CacheKey | components/blog/reactions.tsx:53 | the storage key is the type, a '/', then the slug |
| Reactions.CacheKeyInjective | components/blog/reactions.tsx:53 | two items whose types hold no '/' never share a storage key |
| Reactions.Clicked | components/blog/reactions.tsx:128-129 | a click gives count + 1 below the cap and 10 otherwise, so never more than 10 |
| Reactions.ClickedTimesIsCapped | components/blog/reactions.tsx:123-130 | after n clicks, a count that starts at most 10 is min(10, count + n); it stays 10 once there |
| Reactions.ReactionValue | components/blog/reactions.tsx:82-85 | `--` exactly while loading; otherwise the value minus the baseline is current minus initial |
| Reactions.DisplayText | components/blog/reactions.tsx:150-151 | `--` exactly for the loading value; a number prints as `String(n)`: at least one decimal digit, no leading zero, a leading '-' when negative, and the digits read back to the number |
| Reactions.ReactionBar.Baseline | components/blog/reactions.tsx:82 | the remote count for a kind, 0 when the statistics lack it or it is not numeric |
| Reactions.ReactionBar.Entry | components/blog/reactions.tsx:53 | the cache entry stored under `type/slug`, absent when there is none |
| Reactions.ReactionBar.Label | components/blog/reactions.tsx:164-184 | while reacting, '+' followed by `String` of the button's own count; otherwise `--` while loading, else `String` of baseline + current − initial |
| Reactions.ReactionBar.ValueOf | components/blog/reactions.tsx:82-85 | the value on kind k's button is baseline(k) + reactions(k) − initial(k), or `--` while loading |
| Reactions.ReactionBar.constructor | components/blog/reactions.tsx:43-48 | the bar mounts with both maps all zero, no button reacting and no save scheduled |
| Reactions.ReactionBar.LoadCache | components/blog/reactions.tsx:51-67 | after a load, initial and current are both the decoded entry; an entry that does not parse changes neither |
| Reactions.ReactionBar.SetStats | components/blog/reactions.tsx:43 | the statistics hook delivers new data and a new loading state |
| Reactions.ReactionBar.HandleReact | components/blog/reactions.tsx:123-139 | while loading, nothing changes; otherwise only the clicked kind's count changes, to `Clicked` of it, and that button starts reacting |
| Reactions.ReactionBar.HandleMouseLeave | components/blog/reactions.tsx:141-147 | a save is scheduled exactly when the value is a number and the button is reacting; it captures the total shown and the whole current map |
| Reactions.ReactionBar.FireTimer | components/blog/reactions.tsx:69-77 | the oldest scheduled save stops its button reacting and sends only its kind's field with the captured total; the whole captured map is written under `type/slug` |
| Reactions.ElevenClicks | components/blog/reactions.tsx:123-130 | on an empty cache, eleven clicks on one kind leave its count at 10 and every other count at 0 |
| Reactions.ElevenClicksThenSave | components/blog/reactions.tsx:69-85 | with baseline 5, the ten counted clicks send a total of 15; a later mount restores 10 and, with the new baseline 15, shows 15 |
| TimeUtils.MonthIndex | utils/timeUtils.ts:1-14 | an abbreviation found in the table gives the index it sits at; one not in the table gives none |
| TimeUtils.MonthsDistinct | utils/timeUtils.ts:1-14 | the twelve abbreviations are distinct |
| TimeUtils.FormatDate | utils/timeUtils.ts:17-29 | an invalid date is exactly the case that throws "Invalid date string"; a valid one always formats |
| TimeUtils.FormatDateReadsBack | utils/timeUtils.ts:25-28 | a formatted date is three space-separated words: the day in digits, the month's abbreviation (which gives back the month index) and the year |
| TimeUtils.MonthSpan | utils/timeUtils.ts:49-61 | after the borrow, months lie in 0..11 and years·12 + months is the month distance of the two dates; when start is not after end, years ≥ 0 |
| TimeUtils.DurationText | utils/timeUtils.ts:63-66 | a part is left out when it is not positive, given a plural 's' above 1 and joined by one space; with both parts left out the text is "0 months" |
| TimeUtils.Later | utils/timeUtils.ts:42 | a predicate (`startDate > endDate`); LaterOrder states that it is a strict total order |
| TimeUtils.LaterOrder | utils/timeUtils.ts:42 | `Later` is irreflexive, asymmetric, total on distinct instants and transitive |
| TimeUtils.GetDuration | utils/timeUtils.ts:49-67 | never the start-after-end message; for an ordered pair of dates, a text that reads back to the whole years and months between them |
| TimeUtils.CalculateDuration | utils/timeUtils.ts:31-47 | an invalid date is exactly the failure case; a start after the end gives exactly the message; otherwise the `getDuration` text, which is never the message and reads back to the years and months between the dates |
| TimeUtils.DurationNotMessage | utils/timeUtils.ts:42-46 | no duration text equals the start-after-end message |
| TimeUtils.ReadDurationText | utils/timeUtils.ts:63-66 | the text of a span of whole years and months 0..11 reads back to the same span |
| TimeUtils.DurationTextInjective | utils/timeUtils.ts:63-66 | two such spans with the same text are equal |
| TimeUtils.DurationDeterminesMonths | utils/timeUtils.ts:49-66 | two ordered date pairs get the same text exactly when they are the same number of calendar months apart |
| ProjectCard.NormalizePublicPath | components/cards/project.tsx:38-41 | the result always starts with '/': the placeholder for the empty path, the path itself when it has a leading '/', else '/' + path |
| ProjectCard.NormalizeIdempotent | components/cards/project.tsx:38-41 | normalising twice is normalising once |
| ProjectCard.ResolveImage | components/cards/project.tsx:22-36 | the first entry's string, or an object's string `src`, normalised; otherwise the placeholder; the result starts with '/'; a `null` first entry is exactly the case that throws |
| ProjectCard.SafeHost | components/cards/project.tsx:72-78 | the host when the URL parses, nothing exactly when it does not |
| ProjectCard.LinkOf | components/cards/project.tsx:49-60 | strings map to (host, URL) and throw exactly when they do not parse; objects always map, with the given title when it is non-empty, else the URL's host when it parses to a non-empty host, else "Link"; falsy entries, empty strings and other entries map to nothing |
| ProjectCard.MapLinks | components/cards/project.tsx:48-60 | the map fails exactly when some entry throws; otherwise it maps every entry in place |
| ProjectCard.SomesIsFilter | components/cards/project.tsx:61 | `.filter(Boolean)` keeps exactly the present values, in order, at strictly increasing positions; every position left out is empty |
| ProjectCard.MapFilter | components/cards/project.tsx:48-61 | the list fails exactly when some entry throws, and never grows |
| ProjectCard.LinkArrayIsFilter | components/cards/project.tsx:47-61 | on an array, the links are exactly the entries that map to a link, in their original order; every entry left out maps to nothing |
| ProjectCard.ToLinkArray | components/cards/project.tsx:45-70 | no links gives []; a record gives one link per entry, titled by its key; a string gives one link; an array gives `MapFilter` of it |
| ProjectCard.GetGithubUrl | components/cards/project.tsx:80-82 | the URL of the first link that mentions github.com; nothing exactly when no link does |
| ProjectCard.StripGit | components/cards/project.tsx:92 | one trailing ".git" is removed; a name without one is kept as it is |
| ProjectCard.ParseGithubRepo | components/cards/project.tsx:84-96 | the first two non-empty path segments, with ".git" stripped from the second, exactly when the URL is non-empty, parses, has a github.com hostname and has two such segments |
| ProjectCard.SegmentsHaveNoSlash | components/cards/project.tsx:90 | every non-empty path segment is free of '/' |
| ProjectCard.RepoHasNoSlash | components/cards/project.tsx:90-92 | a found owner is non-empty, and neither owner nor repository holds a '/' |
| ProjectCard.SegmentsOfRepoPath | components/cards/project.tsx:90 | "/owner/repo" followed by nothing or by "/..." has owner and repo as its first two segments |
| ProjectCard.ParseGithubRepoRoundTrip | components/cards/project.tsx:84-96 | a GitHub URL with path "/owner/repo..." gives back that owner, and the repository without ".git" |
| ProjectCard.CardHref | components/cards/project.tsx:110 | the card's target is the canonical URL, else the first link's URL, else the path; an empty value falls through |
| ProjectPage.ResolveHref | app/project/page.tsx:14-19 | "/" + path, else "/project/" + slug, else the demo link, else "/"; the first non-empty field wins |
| ProjectPage.ResolveHrefInternal | app/project/page.tsx:14-19 | unless the demo link is chosen, the target is a non-empty path starting with '/' |
| ProjectPage.ResolveHrefPathFirst | app/project/page.tsx:15 | a non-empty path decides the target, whatever the other fields are |
| ProjectPage.ResolveImage | app/project/page.tsx:21-27 | the project image directory + the first image, else the placeholder; it always starts with "/static/" |
| ProjectPage.NonDrafts | app/project/page.tsx:33 | no draft is left, and every non-draft project keeps its multiplicity |
| ProjectPage.Insert | app/project/page.tsx:34 | inserting adds exactly the one project to the multiset |
| ProjectPage.InsertNewestFirst | app/project/page.tsx:34 | inserting into a newest-first list keeps it newest first |
| ProjectPage.SortNewestFirst | app/project/page.tsx:34 | the result is newest first and a permutation of the input |
| ProjectPage.Items | app/project/page.tsx:32-34 | the projects shown: no drafts, newest first, a permutation of the non-draft projects, and none for a missing collection |
| ProjectPage.ItemsMembership | app/project/page.tsx:32-34 | a project is shown exactly when it is in the collection and is not a draft |
| ProjectPage.MetaLeft | app/project/page.tsx:60 | the duration when it is non-empty, otherwise the formatted date |
| ProjectPage.CardKey | app/project/page.tsx:65 | `_id`, else slug, else the target; only a missing field falls through, so an empty one is still used |
| ProjectPage.CardKeyFallsToHref | app/project/page.tsx:65 | with neither `_id` nor slug, the key is the target, which is never empty |
| Banner.Handle | components/blog/banner.tsx:28 | the handle holds no '/' and no '?' |
| Banner.PhotoId | components/blog/banner.tsx:23-26 | the id is a prefix of the raw file name that holds no '.' and no '?' |
| Banner.Decompose | components/blog/banner.tsx:16-28 | path, author (empty when missing) and the id of the third piece (of the handle when there is no third piece); the id holds no '.' or '?', the handle no '/' or '?' |
| Banner.ShowCredit | components/blog/banner.tsx:32 | a predicate (author and id both non-empty); its cases are stated by EmptyFilenameHidesCredit, NoSeparatorNoCredit and IdFromPath |
| Banner.Alt | components/blog/banner.tsx:30 | the text derived from the handle, or "Article banner photo" when that text is empty; never empty |
| Banner.PhotoIdCutsAtDot | components/blog/banner.tsx:23-26 | "name.ext" gives the id "name" |
| Banner.HandleIsLastSegment | components/blog/banner.tsx:21-28 | the handle of "a/b/c" is "c" |
| Banner.DecomposeShape | components/blog/banner.tsx:14-26 | "dir/sub/file__author__name.ext" gives path "dir/sub/file", author "author", id "name" and handle "file" |
| Banner.IdFromPath | components/blog/banner.tsx:16-32 | "dir/name.ext?q" (no `__`) is all path, with no author; the id "name" is read off the last segment "name.ext", which is also the handle; no credit shows |
| Banner.EmptyFilenameHidesCredit | components/blog/banner.tsx:22-32 | an empty third piece is kept rather than falling back, so the id is empty and no credit shows |
| Banner.NoSeparatorNoCredit | components/blog/banner.tsx:16-19 | a banner with no `__` is all path, with an empty author and no credit |
| Banner.EmptyBanner | components/blog/banner.tsx:16-28 | the empty banner gives an empty path, author, id and handle |
| NextImage.QueryIgnored | components/ui/next-image.tsx:11 | whatever follows the first '?' does not change the decision |
| NextImage.LeadingWhitespaceIgnored | components/ui/next-image.tsx:11 | leading white space does not change the decision |
| NextImage.TrailingWhitespaceIgnored | components/ui/next-image.tsx:11 | trailing white space does not change the decision |
| NextImage.CaseIgnored | components/ui/next-image.tsx:11 | upper- or lower-casing the source does not change the decision |
| NextImage.IsSvg | components/ui/next-image.tsx:9-13 | a predicate; what it decides is stated by the lemmas QueryIgnored, LeadingWhitespaceIgnored, TrailingWhitespaceIgnored, CaseIgnored, SvgCore and the four examples below |
| NextImage.SvgCore | components/ui/next-image.tsx:9-13 | white space and a query around a trimmed core do not change the decision, and the core is compared in lower case |
| NextImage.DecoratedSvgName | components/ui/next-image.tsx:9-13 | " Logo.SVG?v=2 " is an SVG: the query, the padding and the upper case are all ignored |
| NextImage.SvgDataUrl | components/ui/next-image.tsx:12 | "data:image/svg+xml;base64,AA" is an SVG |
| NextImage.SvgInsideNameIsNot | components/ui/next-image.tsx:12 | "a.svg.png" is not an SVG: only the end of the name counts |
| NextImage.StaticImportIsNot | components/ui/next-image.tsx:10 | a source that is not a string is never an SVG |
| NextImage.Forwarded | components/ui/next-image.tsx:17-25 | `src` is always passed; an SVG gets `unoptimized` (the caller's value wins) and no `quality`; a raster image gets `quality` exactly when it is defined, and `unoptimized` only from the caller; every other prop is passed unchanged, and nothing else is added |
| NextImage.SvgProps | components/ui/next-image.tsx:17 | the SVG branch sets `src` and `unoptimized`, and the rest of the props win over both |
| NextImage.RasterProps | components/ui/next-image.tsx:20-25 | the raster branch has `quality` exactly when it is defined or in the rest of the props |
| NextImage.Image | components/ui/next-image.tsx:15-26 | an SVG gets `unoptimized` and never `quality`; a raster image gets `quality` exactly when it is defined; every other prop is passed on unchanged |
| Link.HrefText | components/ui/link.tsx:12-13 | a string target as it is; a route object's pathname; "" otherwise |
| Link.Classify | components/ui/link.tsx:15-16 | internal exactly when the target starts with '/', anchor exactly when it starts with '#', external exactly when it starts with neither |
| Link.MissingPathnameIsExternal | components/ui/link.tsx:12-16 | a route object without a pathname becomes "" and so an external link |
| Link.JoinClasses | components/ui/link.tsx:33 | the non-empty class names, joined by one space |
| Link.ClassName | components/ui/link.tsx:23-38 | the class starts with "break-words", followed by the caller's class and then a child `<a>`'s class |
| Link.SharedProps | components/ui/link.tsx:37-41 | the shared props carry the merged class; the caller's rest props win over props lifted from a child `<a>` |
| Link.Render | components/ui/link.tsx:10-70 | a router link exactly for internal targets; a plain `<a>` otherwise, with the target text as `href`; external links get `target` and `rel`, which the caller's or the child's props override; missing content becomes "Link"; no prop appears beyond the class, `href`, the caller's and the child's props and, for external links, `target` and `rel` |
| Link.ChildRest | components/ui/link.tsx:20-31 | a child `<a>` hands on all its props except `children` and `className`, unchanged; any other child hands on none |
| Link.Lifted | components/ui/link.tsx:37-41 | a function (the caller's value wins over the child's, which wins over the branch's own); what it means for the rendered props is stated by SharedLookup and Render |
| Link.MergedClasses | components/ui/link.tsx:33-38 | with both names given, the class is "break-words parent child" |
| Link.BareClass | components/ui/link.tsx:38 | with no class given anywhere, the class is exactly "break-words" |
| SkillSection.ItemsPerRow | app/about/_section/skillSection.tsx:9 | `ceil(n / 3)`: three rows of that many entries hold every entry, and one fewer per row would not; the count is 0 only with no entries |
| SkillSection.Row | app/about/_section/skillSection.tsx:14-16 | a row holds at most `itemsPerRow` entries |
| SkillSection.Rows | app/about/_section/skillSection.tsx:13-16 | there are always exactly three rows |
| SkillSection.RowsPartition | app/about/_section/skillSection.tsx:13-16 | the rows read in order are exactly the entries, with nothing lost, repeated or moved |
| SkillSection.RowsBounded | app/about/_section/skillSection.tsx:9-16 | each row holds at most ceil(n / 3) entries |
| SkillSection.NoEntriesNoRows | app/about/_section/skillSection.tsx:9-16 | with no entries every row is empty |
| SkillSection.RowsShrink | app/about/_section/skillSection.tsx:9-16 | a later row never holds more than an earlier one, so only trailing rows can be empty |
| SkillSection.RowDirection | app/about/_section/skillSection.tsx:24 | even rows scroll left, odd rows right |
| SkillSection.DirectionsAlternate | app/about/_section/skillSection.tsx:24 | neighbouring rows scroll in opposite directions |
| Slices.Slice | app/about/_section/skillSection.tsx:16 | both bounds are clamped to the length, and a reversed window is empty |
| Slices.CeilDiv | app/blog/page.tsx:21 | the smallest number of pages of size d that holds n entries |
| BlogPage.PageOf | app/blog/page.tsx:15-18 | page k is the window from perPage·(k−1) up to perPage·k, clamped to the posts |
| BlogPage.InitialDisplayPosts | app/blog/page.tsx:14-18 | the first page is the prefix of length min(|posts|, perPage) |
| BlogPage.PaginationOf | app/blog/page.tsx:19-22 | the current page is 1; the pages hold every post and no trailing page is empty; no posts means no pages |
| BlogPage.PagesCoverPosts | app/blog/page.tsx:15-21 | every post is on a page from 1 to the total, at its place within that page |
| BlogPage.LastPageNonEmpty | app/blog/page.tsx:21 | with posts, the last page holds at least one |
| BlogPage.NoPageBeyond | app/blog/page.tsx:21 | a page after the last holds no posts |
| PostCard.SocialBanner | data/site-metadata.ts:14 | the banner URL ends with "/static/images/twitter-card.jpeg", and is exactly that when no base path is set |
| PostCard.Cover | components/blog/post-card-grid-view.tsx:13-14 | the first image when there is one, else the site's social banner |
| PostCard.Minutes | components/blog/post-card-grid-view.tsx:15 | at least 1; a positive reading time is rounded up |
| PostCard.NoReadingTimeIsOneMinute | components/blog/post-card-grid-view.tsx:15 | a missing or zero reading time shows 1 minute |
| PostCard.RoundsUp | components/blog/post-card-grid-view.tsx:15 | 2.3 minutes show as 3 |
| PostCard.PostHref | components/blog/post-card-grid-view.tsx:22 | '/' followed by the post's path |
| PostCard.PostHrefInternal | components/blog/post-card-grid-view.tsx:98 | the cover link and the title link both route internally |
| TriPolygon.Value | components/ui/TriPolygonBackground.tsx:55 | a draw is k/1000 with k in 0..999, so it lies in [0, 0.999] |
| TriPolygon.DrawsFrom | components/ui/TriPolygonBackground.tsx:50-56 | n draws are n values in [0, 0.999], the first read off the stepped state |
| TriPolygon.DrawsSplit | components/ui/TriPolygonBackground.tsx:50-56 | m draws followed by n more are the first m + n draws |
| TriPolygon.Seed | components/ui/TriPolygonBackground.tsx:49 | a function (the seed modulo 2^32 as a 32-bit pattern); SeedPeriodic and ZeroSeedDrawsZeros state its properties |
| TriPolygon.SeedPeriodic | components/ui/TriPolygonBackground.tsx:49 | seeds that agree modulo 2^32 give the same state |
| TriPolygon.Step | components/ui/TriPolygonBackground.tsx:52-54 | one xorshift32 step keeps zero at zero and never takes another state to zero |
| TriPolygon.AdvanceKeepsZero | components/ui/TriPolygonBackground.tsx:51-56 | after any number of draws the state is zero exactly when it started at zero |
| TriPolygon.ZeroStateDrawsZeros | components/ui/TriPolygonBackground.tsx:51-56 | the zero state draws only zeros |
| TriPolygon.ZeroSeedDrawsZeros | components/ui/TriPolygonBackground.tsx:49-56 | a seed that is a multiple of 2^32, 0 among them, starts in the zero state and draws only zeros |
| TriPolygon.SameSeedSameDraws | components/ui/TriPolygonBackground.tsx:47-57 | seeds that agree modulo 2^32 give the same draws |
| TriPolygon.Rng.constructor | components/ui/TriPolygonBackground.tsx:49 | the state is `seed >>> 0` |
| TriPolygon.Rng.Next | components/ui/TriPolygonBackground.tsx:50-56 | a call advances the state by one xorshift32 step (13 left, 17 right, 5 left) and returns the value of the new state |
| TriPolygon.Rng.Draws | components/ui/TriPolygonBackground.tsx:50-56 | n calls return the first n draws and leave the state n steps on |
| TriPolygon.Jitter | components/ui/TriPolygonBackground.tsx:60-64 | with no jitter the coordinate is kept and no draw is used; otherwise exactly one draw moves it by at most jitter·gap either way |
| TriPolygon.OffsetBounded | components/ui/TriPolygonBackground.tsx:62 | a draw in [0, 1) gives an offset within ±jitter·gap |
| Animations.TimelineConstants | components/animations/animations.tsx:29-37 | enter 20, run 23, end 26, window 27, timeline end 28 |
| Animations.NextTick | components/animations/animations.tsx:49 | the tick never decreases; below the end it goes up by one, at or past the end it stays put |
| Animations.TicksClamp | components/animations/animations.tsx:48-50 | n firings from a tick on the timeline reach min(tick + n, end) |
| Animations.InitialTick | components/animations/animations.tsx:40 | the first tick lies on the timeline: the end exactly under reduced motion, 0 exactly otherwise |
| Animations.CursorShown | components/animations/animations.tsx:71 | a predicate (tick below 20); BuildLines, FinalFrame and BlankFrame state when the cursor shows |
| Animations.WindowShown | components/animations/animations.tsx:130 | a predicate (tick past 27); FinalFrame, BlankFrame, PlayThrough and ReducedMotionStaysBlank state when the window shows |
| Animations.TypedText | components/animations/animations.tsx:70 | the typed text is the prefix of the command of length min(tick, 20), and empty before tick 1 |
| Animations.ShownItems | components/animations/animations.tsx:89-112 | item k (from 1) of the response shows exactly when the tick passes run + k, in order |
| Animations.BuildLines | components/animations/animations.tsx:65-118 | the command first (cursor exactly below 20), a space exactly once it is typed, the response exactly once the tick passes run, holding the items shown |
| Animations.FinalFrame | components/animations/animations.tsx:65-130 | at the end the whole command, every item and the window show, and the cursor does not |
| Animations.BlankFrame | components/animations/animations.tsx:65-130 | at tick 0 only the cursor shows |
| Animations.Terminal.Mount | components/animations/animations.tsx:16-40 | the first render: no reduced motion reported yet, tick 0, an interval running |
| Animations.Terminal.Effect | components/animations/animations.tsx:45-55 | an interval runs exactly when motion is allowed and the tick is below the end |
| Animations.Terminal.MediaChange | components/animations/animations.tsx:18-24 | the reported preference changes and the tick stays as it is |
| Animations.Terminal.MediaChangeIntended | components/animations/animations.tsx:40 | corrected: a reduced preference jumps the tick to the end |
| Animations.Terminal.Fire | components/animations/animations.tsx:48-50 | a running interval steps the tick; with none running nothing changes |
| Animations.Terminal.Restart | components/animations/animations.tsx:58-61 | back to 0 with an interval, exactly when motion is allowed and the timeline has ended; otherwise nothing changes |
| Animations.Terminal.Run | components/animations/animations.tsx:45-55 | n firings give `Ticks(tick, n)` with motion allowed, and nothing with reduced motion |
| Animations.PlayThrough | components/animations/animations.tsx:40-130 | with motion allowed, a full run from mount ends on the final frame, with the window shown |
| Animations.ReducedMotionStaysBlank | components/animations/animations.tsx:16-61 | as written: with reduced motion the tick stays 0 whatever fires, so neither the command nor the window ever shows |
| Animations.ReducedMotionShowsFinalFrame | components/animations/animations.tsx:39-61 | corrected: with reduced motion the final frame shows and stays |

## Left out

- Timers: `setTimeout` and `setInterval` are explicit steps (`FireTimer`, `Fire`). Their delays (1 s, 100 ms, the 150 ms scale-up class) are not modelled. Neither is any cancellation: the per-render `reactingTimeoutId` cannot reliably cancel an earlier render's timer.
- Reactions.ReactionBar.HandleReact: clicks are applied one per render. Several clicks batched into one render would all read the same count, and this is not modelled.
- Reactions.ReactionBar.LoadCache: an entry that does not parse keeps the maps as they were. That is all zeros only on the first mount of an item.
- Reactions.DisplayText: a non-finite value would show `--`, but values are integers here, so that case cannot arise.
- Reactions.ToNum: `Number()`'s coercion of arbitrary JavaScript values is taken as done, as an optional integer.
- Concurrency: several tabs writing the same local-storage entry are not modelled.
- Network: the reaction update request and the statistics, GitHub and SWR fetches appear only as the values they send or deliver.
- Dates: parsing (`new Date`) and the local time zone are not modelled. Dates arrive as their fields, and the project sort's timestamps as a function. NaN dates in the sort are not modelled.
- URL parsing: `new URL` is a parameter.
- Strings: upper case and lower case use the ASCII letters only. There is no Unicode case mapping. White space is the set of characters `trim` strips.
- Link.Render: a child `<a>` whose `className` is not a string is treated as having no class.
- ProjectPage.SortNewestFirst: it is proved newest first and a permutation. That the engine's sort is stable on equal dates is not stated.
- Unseen helpers are parameters, not functions of the model: `formatDate` and `sortPosts` of utils/misc, `capitalize` and `kebabCaseToPlainText`, `allCoreContent` of utils/contentlayer, and the value of `POSTS_PER_PAGE` of utils/const. utils/misc, utils/contentlayer and utils/const are not part of this model.
- TriPolygon: the triangle geometry (`Math.sqrt(3)`, the SVG path strings, the points A to D) and every floating-point effect are left out. Draws and offsets are exact reals.
- TriPolygon.Rng.constructor: `seed >>> 0` is modelled for integral seeds only. There is no lemma that `Seed(seed) as int == seed % 2^32`: the conversion between bit-vectors and integers is beyond the solver, so the model states only SeedPeriodic and ZeroSeedDrawsZeros about the seed.
- Animations: the response's header and message text are not modelled, only the item names. The window's CSS animation class is not modelled either.
- SkillSection: the marquee speed and the icons are not modelled; the entries are a sequence.
- Presentation-only components and hooks are not part of this model: navigation, footer, layout, the views counter and analytics.

## Findings

| source | as written | input that shows it | evidently intended | confidence | as-written member | corrected member |
|---|---|---|---|---|---|---|
| components/animations/animations.tsx:40 | The tick starts at `prefersReduced ? timeEnd : 0`. The reduced-motion hook starts at `false` and reports the real preference only in an effect after the first render (lines 16-24). So the tick starts at 0, and nothing moves it later: the interval and `restart` both bail out under reduced motion. | a visitor whose system prefers reduced motion | such a visitor sees the finished terminal at once (tick = timeEnd) | not executed | Animations.ReducedMotionStaysBlank | Animations.ReducedMotionShowsFinalFrame |
