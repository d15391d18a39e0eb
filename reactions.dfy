/**
 * The per-item emoji reaction bar: four reaction kinds, a count per kind
 * for this browser (`reactions`), the counts it restored from the local
 * cache (`initialReactions`), the remote baseline, and one `reacting` flag
 * per kind. A click raises one count (at most to 10); leaving the button
 * schedules a save that sends baseline + current - initial for that kind
 * and writes the whole current map back to the cache under `type/slug`.
 */
module Reactions {
  import opened Wrappers
  import opened Strings

  /** The cap on a browser's count for one kind. */
  const MaxReactions: int := 10

  datatype Kind = Loves | Applauses | Bullseyes | Ideas

  /** The property name a kind is stored and sent under. */
  function Key(k: Kind): (s: string)
    ensures s in {"loves", "applauses", "bullseyes", "ideas"}
  {
    match k
    case Loves => "loves"
    case Applauses => "applauses"
    case Bullseyes => "bullseyes"
    case Ideas => "ideas"
  }

  lemma KeyInjective(a: Kind, b: Kind)
    requires Key(a) == Key(b)
    ensures a == b
  {
  }

  type Counts = map<Kind, int>

  /** A reaction map has a count for every kind. */
  predicate Total<V>(m: map<Kind, V>) {
    forall k: Kind :: k in m
  }

  /** Every kind is one of the four. */
  lemma EveryKind(k: Kind)
    ensures k == Loves || k == Applauses || k == Bullseyes || k == Ideas
  {
    match k
    case _ =>
  }

  function Four<V>(loves: V, applauses: V, bullseyes: V, ideas: V): (m: map<Kind, V>)
    ensures Total(m)
    ensures m[Loves] == loves && m[Applauses] == applauses
    ensures m[Bullseyes] == bullseyes && m[Ideas] == ideas
  {
    var m := map[Loves := loves, Applauses := applauses, Bullseyes := bullseyes, Ideas := ideas];
    assert forall k: Kind :: k in m by {
      forall k: Kind ensures k in m {
        EveryKind(k);
      }
    }
    m
  }

  function ZeroMap(): (m: Counts)
    ensures Total(m) && forall k: Kind :: m[k] == 0
  {
    var m := Four(0, 0, 0, 0);
    assert forall k: Kind :: m[k] == 0 by {
      forall k: Kind ensures m[k] == 0 {
        EveryKind(k);
      }
    }
    m
  }

  /**
   * `toNum(v, fallback)`: the value itself when it is a finite number, the
   * fallback otherwise. `Number(v)` is taken as already done: `None` stands
   * for a value whose coercion is not a finite number (undefined, NaN, a
   * non-numeric string, Infinity).
   */
  function ToNum(v: Option<int>, fallback: int := 0): (n: int)
    ensures v.Some? ==> n == v.value
    ensures v.None? ==> n == fallback
  {
    match v
    case Some(x) => x
    case None => fallback
  }

  /**
   * What `localStorage.getItem` followed by `JSON.parse` yields: nothing
   * (`null` or the empty string, read as `{}`), text that does not parse
   * (the `catch`), or a JSON value given by the numeric reading of each of
   * its properties (a value that is not an object has none).
   */
  datatype Cached = Absent | Malformed | Parsed(fields: map<string, Option<int>>)

  function Field(fields: map<string, Option<int>>, key: string): Option<int> {
    if key in fields then fields[key] else None
  }

  /** The cache-load effect's reading of an entry; `None` when parsing throws. */
  function Decode(c: Cached): (r: Option<Counts>)
    ensures r.None? <==> c.Malformed?
    ensures r.Some? ==> Total(r.value)
    ensures c.Absent? ==> r == Some(ZeroMap())
    ensures c.Parsed? ==> forall k: Kind ::
      r.value[k] == (if Key(k) in c.fields && c.fields[Key(k)].Some? then c.fields[Key(k)].value else 0)
  {
    match c
    case Malformed => None
    case Absent => Some(ZeroMap())
    case Parsed(fields) =>
      var m := Four(ToNum(Field(fields, "loves"), 0), ToNum(Field(fields, "applauses"), 0),
                    ToNum(Field(fields, "bullseyes"), 0), ToNum(Field(fields, "ideas"), 0));
      assert forall k: Kind :: m[k] == ToNum(Field(fields, Key(k)), 0) by {
        forall k: Kind ensures m[k] == ToNum(Field(fields, Key(k)), 0) {
          EveryKind(k);
        }
      }
      Some(m)
  }

  /** `JSON.stringify(reactions)` as read back by `JSON.parse`: every count is a finite number. */
  function Encode(m: Counts): (c: Cached)
    requires Total(m)
    ensures c.Parsed? && c.fields.Keys == {"loves", "applauses", "bullseyes", "ideas"}
  {
    Parsed(map["loves" := Some(m[Loves]), "applauses" := Some(m[Applauses]),
               "bullseyes" := Some(m[Bullseyes]), "ideas" := Some(m[Ideas])])
  }

  /** What a save writes, a later load restores. */
  lemma DecodeEncode(m: Counts)
    requires Total(m)
    ensures Decode(Encode(m)) == Some(m)
  {
    var d := Decode(Encode(m)).value;
    forall k: Kind ensures d[k] == m[k] {
      EveryKind(k);
    }
    assert d.Keys == m.Keys by {
      forall k: Kind ensures k in d <==> k in m {
        EveryKind(k);
      }
    }
    assert d == m;
  }

  /** The cache key `${type}/${slug}`. */
  function CacheKey(typ: string, slug: string): (key: string)
    ensures StartsWith(key, typ + "/") && EndsWith(key, slug)
  {
    typ + "/" + slug
  }

  /** Two items whose types hold no '/' never share a cache entry. */
  lemma {:induction false} CacheKeyInjective(t1: string, s1: string, t2: string, s2: string)
    requires '/' !in t1 && '/' !in t2
    requires CacheKey(t1, s1) == CacheKey(t2, s2)
    ensures t1 == t2 && s1 == s2
  {
    SplitCons(t1, "/", s1);
    SplitCons(t2, "/", s2);
    assert t1 == Split(CacheKey(t1, s1), "/")[0];
    assert t2 == Split(CacheKey(t2, s2), "/")[0];
    assert s1 == CacheKey(t1, s1)[|t1| + 1..];
    assert s2 == CacheKey(t2, s2)[|t2| + 1..];
  }

  /** One click on a count: one more, but never more than the cap. */
  function Clicked(count: int): (next: int)
    ensures next <= MaxReactions
    ensures count < MaxReactions ==> next == count + 1
    ensures count >= MaxReactions ==> next == MaxReactions
  {
    if count + 1 < MaxReactions then count + 1 else MaxReactions
  }

  /** The count after `n` clicks. */
  function ClickedTimes(count: int, n: nat): int {
    if n == 0 then count else Clicked(ClickedTimes(count, n - 1))
  }

  /** However many clicks, a count that starts at most 10 ends at min(10, count + n). */
  lemma {:induction false} ClickedTimesIsCapped(count: int, n: nat)
    requires count <= MaxReactions
    ensures ClickedTimes(count, n) == if count + n < MaxReactions then count + n else MaxReactions
  {
    if n > 0 {
      ClickedTimesIsCapped(count, n - 1);
    }
  }

  /** The value a reaction button is given: `--` while the stats load. */
  datatype Value = Loading | Count(n: int)

  function ReactionValue(loading: bool, base: int, curr: int, init: int): (v: Value)
    ensures v.Loading? <==> loading
    ensures v.Count? ==> v.n - base == curr - init
  {
    if loading then Loading else Count(base + curr - init)
  }

  /**
   * `displayValue`: the number when there is one, printed the way `String(n)`
   * prints it (no leading zeros, a '-' for a negative count), `--` otherwise.
   */
  function DisplayText(v: Value): (s: string)
    ensures v.Loading? <==> s == "--"
    ensures v.Count? && v.n >= 0 ==>
      (forall i :: 0 <= i < |s| ==> '0' <= s[i] <= '9') && ParseDigits(s) == v.n
    ensures v.Count? && v.n < 0 ==>
      |s| > 1 && s[0] == '-' && (forall i :: 1 <= i < |s| ==> '0' <= s[i] <= '9') && ParseDigits(s[1..]) == -v.n
    ensures v.Count? && v.n >= 0 ==> |s| >= 1 && (|s| > 1 ==> s[0] != '0')
    ensures v.Count? && v.n < 0 ==> (|s| > 2 ==> s[1] != '0')
    ensures v.Count? ==> s == IntToString(v.n)
  {
    match v
    case Loading => "--"
    case Count(n) => IntToStringDigits(n); IntToString(n)
  }

  /** The request `updateReaction` sends: only field `key`, with the reconciled total. */
  datatype Update = Update(typ: string, slug: string, key: string, total: int)

  /** A save scheduled by a mouse-leave, with the values its closure captured. */
  datatype PendingSave = PendingSave(kind: Kind, total: int, snapshot: Counts)

  class ReactionBar {
    const typ: string
    const slug: string
    /** The remote stats for this item (property name to numeric reading); read as the baseline. */
    var stats: map<string, Option<int>>
    var loading: bool
    var initial: Counts
    var reactions: Counts
    var reacting: map<Kind, bool>
    /** The browser's local storage, by key. */
    var cache: map<string, Cached>
    /** Saves scheduled and not yet fired, oldest first. */
    var timers: seq<PendingSave>

    ghost predicate Valid()
      reads this
    {
      Total(initial) && Total(reactions) && Total(reacting)
      && forall i :: 0 <= i < |timers| ==> Total(timers[i].snapshot)
    }

    /** The remote baseline for a kind, 0 when absent or not numeric. */
    function Baseline(k: Kind): (b: int)
      reads this
      ensures Key(k) in stats && stats[Key(k)].Some? ==> b == stats[Key(k)].value
      ensures Key(k) !in stats || stats[Key(k)].None? ==> b == 0
    {
      ToNum(Field(stats, Key(k)), 0)
    }

    /** The value shown on kind k's button: baseline + current - initial, or `--`. */
    function ValueOf(k: Kind): (v: Value)
      reads this
      requires Valid()
      ensures v.Loading? <==> loading
      ensures v.Count? ==> v.n == Baseline(k) + reactions[k] - initial[k]
    {
      ReactionValue(loading, Baseline(k), reactions[k], initial[k])
    }

    /** The label the button shows: `+count` while reacting, the value otherwise. */
    function Label(k: Kind): (r: string)
      reads this
      requires Valid()
      ensures reacting[k] ==> |r| > 1 && r[0] == '+' && r[1..] == IntToString(reactions[k])
      ensures !reacting[k] && loading ==> r == "--"
      ensures !reacting[k] && !loading ==> r == IntToString(Baseline(k) + reactions[k] - initial[k])
    {
      if reacting[k] then
        var count := IntToString(reactions[k]);
        assert ("+" + count)[1..] == count;
        "+" + count
      else DisplayText(ValueOf(k))
    }

    /** The component mounts with all-zero maps, no reacting button and no timer. */
    constructor (typ: string, slug: string, cache: map<string, Cached>,
                 stats: map<string, Option<int>>, loading: bool)
      ensures Valid()
      ensures this.typ == typ && this.slug == slug && this.cache == cache
      ensures this.stats == stats && this.loading == loading
      ensures initial == ZeroMap() && reactions == ZeroMap() && timers == []
      ensures forall k: Kind :: !reacting[k]
    {
      this.typ := typ;
      this.slug := slug;
      this.cache := cache;
      this.stats := stats;
      this.loading := loading;
      initial := ZeroMap();
      reactions := ZeroMap();
      reacting := Four(false, false, false, false);
      timers := [];
      new;
      forall k: Kind ensures !reacting[k] {
        EveryKind(k);
      }
    }

    /** The cache entry stored under `${type}/${slug}`, absent when there is none. */
    function Entry(): (e: Cached)
      reads this
      ensures CacheKey(typ, slug) in cache ==> e == cache[CacheKey(typ, slug)]
      ensures CacheKey(typ, slug) !in cache ==> e.Absent?
    {
      var key := CacheKey(typ, slug);
      if key in cache then cache[key] else Absent
    }

    /**
     * The cache-load effect: both maps become the decoded entry (missing
     * or non-numeric fields read 0); an entry that does not parse changes
     * nothing.
     */
    method LoadCache()
      requires Valid()
      modifies this`initial, this`reactions
      ensures Valid()
      ensures Entry().Malformed? ==> initial == old(initial) && reactions == old(reactions)
      ensures !Entry().Malformed? ==> initial == reactions == Decode(Entry()).value
    {
      var decoded := Decode(Entry());
      if decoded.Some? {
        initial := decoded.value;
        reactions := decoded.value;
      }
    }

    /** The stats hook delivers new data or a new loading state. */
    method SetStats(stats: map<string, Option<int>>, loading: bool)
      modifies this`stats, this`loading
      ensures this.stats == stats && this.loading == loading
    {
      this.stats := stats;
      this.loading := loading;
    }

    /**
     * `handleReact`: ignored while the value is `--`; otherwise the button
     * starts reacting and its count goes one up, capped at 10. No other
     * count changes.
     */
    method HandleReact(k: Kind)
      requires Valid()
      modifies this`reactions, this`reacting
      ensures Valid()
      ensures old(loading) ==> reactions == old(reactions) && reacting == old(reacting)
      ensures !old(loading) ==> reactions == old(reactions)[k := Clicked(old(reactions)[k])]
      ensures !old(loading) ==> reacting == old(reacting)[k := true]
    {
      if ValueOf(k).Count? {
        reacting := reacting[k := true];
        var safeCurr := reactions[k];
        var next := if MaxReactions < safeCurr + 1 then MaxReactions else safeCurr + 1;
        reactions := reactions[k := next];
      }
    }

    /**
     * `handleMouseLeave`: when the value is a number and the button is
     * reacting, a save is scheduled with what this render sees: the total
     * on display and the whole current map.
     */
    method HandleMouseLeave(k: Kind)
      requires Valid()
      modifies this`timers
      ensures Valid()
      ensures ValueOf(k).Count? && reacting[k] ==>
        timers == old(timers) + [PendingSave(k, ValueOf(k).n, reactions)]
      ensures !(ValueOf(k).Count? && reacting[k]) ==> timers == old(timers)
    {
      if ValueOf(k).Count? && reacting[k] {
        timers := timers + [PendingSave(k, ValueOf(k).n, reactions)];
      }
    }

    /**
     * The oldest scheduled save fires: its button stops reacting, the
     * captured total for its kind is sent, and the captured map is written
     * to the cache under `type/slug`.
     */
    method FireTimer() returns (sent: Option<Update>)
      requires Valid()
      modifies this`timers, this`reacting, this`cache
      ensures Valid()
      ensures old(timers) == [] ==> sent == None && timers == [] && reacting == old(reacting) && cache == old(cache)
      ensures old(timers) != [] ==>
        var t := old(timers)[0];
        && sent == Some(Update(typ, slug, Key(t.kind), t.total))
        && timers == old(timers)[1..]
        && reacting == old(reacting)[t.kind := false]
        && cache == old(cache)[CacheKey(typ, slug) := Encode(t.snapshot)]
    {
      if timers == [] {
        return None;
      }
      var t := timers[0];
      timers := timers[1..];
      reacting := reacting[t.kind := false];
      cache := cache[CacheKey(typ, slug) := Encode(t.snapshot)];
      sent := Some(Update(typ, slug, Key(t.kind), t.total));
    }
  }

  /** Baseline 5 for `loves` and an empty cache, then eleven clicks: the count stops at 10. */
  method ElevenClicks() returns (bar: ReactionBar)
    ensures fresh(bar) && bar.Valid() && !bar.loading && bar.timers == []
    ensures bar.typ == "blog" && bar.slug == "my-post"
    ensures bar.initial == ZeroMap() && bar.stats == map["loves" := Some(5)]
    ensures bar.reactions == ZeroMap()[Loves := 10] && bar.reacting[Loves]
  {
    bar := new ReactionBar("blog", "my-post", map[], map["loves" := Some(5)], false);
    bar.LoadCache();
    assert bar.initial == ZeroMap();
    var i := 0;
    while i < 11
      invariant 0 <= i <= 11 && bar.Valid() && !bar.loading && bar.timers == []
      invariant bar.typ == "blog" && bar.slug == "my-post"
      invariant bar.initial == ZeroMap() && bar.stats == map["loves" := Some(5)]
      invariant bar.reactions == ZeroMap()[Loves := ClickedTimes(0, i)]
      invariant i > 0 ==> bar.reacting[Loves]
    {
      bar.HandleReact(Loves);
      i := i + 1;
    }
    ClickedTimesIsCapped(0, 11);
  }

  /**
   * After the eleven clicks, mouse-leave and the timer firing: the total
   * sent is 15; a later mount restores the ten clicks and shows the new
   * baseline.
   */
  method ElevenClicksThenSave() returns (sent: Option<Update>, restored: int, shown: Value)
    ensures sent == Some(Update("blog", "my-post", "loves", 15))
    ensures restored == 10 && shown == Count(15)
  {
    var bar := ElevenClicks();
    assert bar.reactions[Loves] == 10;
    assert bar.ValueOf(Loves) == Count(15);
    bar.HandleMouseLeave(Loves);
    sent := bar.FireTimer();
    assert !bar.reacting[Loves];

    var next := new ReactionBar("blog", "my-post", bar.cache, map["loves" := Some(15)], false);
    DecodeEncode(bar.reactions);
    next.LoadCache();
    assert next.initial == next.reactions;
    restored := next.reactions[Loves];
    shown := next.ValueOf(Loves);
  }
}
