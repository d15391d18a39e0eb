/**
 * The string operations of the JavaScript standard library that the core
 * relies on (`indexOf`, `split`, `join`, `startsWith`, `endsWith`,
 * `includes`, `trim`, `toLowerCase`, `String(n)`), with the facts about
 * them that the components' proofs use.
 */
module Strings {
  import opened Wrappers

  predicate StartsWith(s: string, p: string) {
    |p| <= |s| && s[..|p|] == p
  }

  predicate EndsWith(s: string, p: string) {
    |p| <= |s| && s[|s| - |p|..] == p
  }

  /** `t` occurs in `s` starting at index `i`. */
  predicate OccursAt(s: string, t: string, i: nat) {
    i + |t| <= |s| && s[i..i + |t|] == t
  }

  /** Occurrences in `s` at index j >= 1 are the occurrences in `s[1..]` at j - 1. */
  lemma OccursShift(s: string, t: string)
    requires |s| > 0
    ensures forall j: nat {:trigger OccursAt(s, t, j)} :: j >= 1 ==> (OccursAt(s, t, j) <==> OccursAt(s[1..], t, j - 1))
  {
    forall j: nat | j >= 1 ensures OccursAt(s, t, j) <==> OccursAt(s[1..], t, j - 1) {
      if j + |t| <= |s| {
        assert s[1..][j - 1..j - 1 + |t|] == s[j..j + |t|];
      }
    }
  }

  /** `s.indexOf(t)`: the first index at which `t` occurs, if any. */
  function IndexOf(s: string, t: string): (r: Option<nat>)
    ensures r.Some? ==> OccursAt(s, t, r.value)
    ensures r.Some? ==> forall j :: 0 <= j < r.value ==> !OccursAt(s, t, j)
    ensures r.None? ==> forall j :: 0 <= j ==> !OccursAt(s, t, j)
    decreases |s|
  {
    if |s| < |t| then None
    else if s[..|t|] == t then Some(0)
    else
      OccursShift(s, t);
      match IndexOf(s[1..], t)
      case None => None
      case Some(i) => Some(i + 1)
  }

  /** `s.includes(t)` */
  predicate Contains(s: string, t: string) {
    IndexOf(s, t).Some?
  }

  lemma ContainsChar(s: string, c: char)
    ensures Contains(s, [c]) <==> c in s
  {
    if Contains(s, [c]) {
      var i := IndexOf(s, [c]).value;
      assert s[i..i + 1][0] == s[i];
    }
    if c in s {
      var i :| 0 <= i < |s| && s[i] == c;
      assert s[i..i + 1] == [c];
      assert OccursAt(s, [c], i);
    }
  }

  /**
   * `s.split(sep)` for a non-empty separator: the pieces between the
   * occurrences of `sep`, found left to right.
   */
  function Split(s: string, sep: string): (parts: seq<string>)
    requires |sep| > 0
    ensures |parts| >= 1
    decreases |s|
  {
    match IndexOf(s, sep)
    case None => [s]
    case Some(i) => [s[..i]] + Split(s[i + |sep|..], sep)
  }

  /** `parts.join(sep)` */
  function Join(parts: seq<string>, sep: string): string {
    if |parts| == 0 then ""
    else if |parts| == 1 then parts[0]
    else parts[0] + sep + Join(parts[1..], sep)
  }

  /** `parts.filter(Boolean)` on strings: drops the empty ones, keeps the order. */
  function NonEmpty(parts: seq<string>): (r: seq<string>)
    ensures |r| <= |parts|
    ensures forall p :: p in r ==> p != "" && p in parts
    ensures forall p :: p in parts && p != "" ==> p in r
  {
    if parts == [] then []
    else if parts[0] == "" then NonEmpty(parts[1..])
    else [parts[0]] + NonEmpty(parts[1..])
  }

  lemma NonEmptyCons(a: string, rest: seq<string>)
    ensures NonEmpty([a] + rest) == (if a == "" then [] else [a]) + NonEmpty(rest)
  {
    assert ([a] + rest)[1..] == rest;
  }

  /** `parts.pop() ?? ''` on the result of a split, which is never empty. */
  function Last(parts: seq<string>): string {
    if parts == [] then "" else parts[|parts| - 1]
  }

  lemma JoinCons(a: string, rest: seq<string>, sep: string)
    requires |rest| >= 1
    ensures Join([a] + rest, sep) == a + sep + Join(rest, sep)
  {
    assert ([a] + rest)[1..] == rest;
  }

  lemma JoinPair(a: string, b: string, sep: string)
    ensures Join([a, b], sep) == a + sep + b
  {
    assert [a, b][1..] == [b];
  }

  /** Joining the pieces of a split with its separator gives back the string. */
  lemma {:induction false} JoinSplit(s: string, sep: string)
    requires |sep| > 0
    ensures Join(Split(s, sep), sep) == s
    decreases |s|
  {
    var found := IndexOf(s, sep);
    if found.Some? {
      var i := found.value;
      var rest := s[i + |sep|..];
      assert Split(s, sep) == [s[..i]] + Split(rest, sep);
      JoinSplit(rest, sep);
      JoinCons(s[..i], Split(rest, sep), sep);
      Recompose(s, i, |sep|);
    }
  }

  lemma Recompose(s: string, i: nat, n: nat)
    requires i + n <= |s|
    ensures s == s[..i] + s[i..i + n] + s[i + n..]
  {
  }

  /** No piece of a split contains the separator. */
  lemma {:induction false} SplitPiecesFree(s: string, sep: string, k: nat)
    requires |sep| > 0
    requires k < |Split(s, sep)|
    ensures !Contains(Split(s, sep)[k], sep)
    decreases |s|
  {
    match IndexOf(s, sep)
    case None =>
    case Some(i) =>
      if k == 0 {
        PrefixBeforeFirstFree(s, sep, i);
      } else {
        SplitPiecesFree(s[i + |sep|..], sep, k - 1);
      }
  }

  /** The text before the first occurrence holds none. */
  lemma PrefixBeforeFirstFree(s: string, sep: string, i: nat)
    requires |sep| > 0 && i <= |s| && forall j :: 0 <= j < i ==> !OccursAt(s, sep, j)
    ensures !Contains(s[..i], sep)
  {
    var p := s[..i];
    if Contains(p, sep) {
      var j := IndexOf(p, sep).value;
      assert p[j..j + |sep|] == s[j..j + |sep|];
      assert OccursAt(s, sep, j);
    }
  }

  /** The first piece of a split is a prefix of the string. */
  lemma SplitFirstIsPrefix(s: string, sep: string)
    requires |sep| > 0
    ensures StartsWith(s, Split(s, sep)[0])
  {
  }

  /** No piece of a split on one character holds that character. */
  lemma SplitPieceLacks(s: string, c: char, k: nat)
    requires k < |Split(s, [c])|
    ensures c !in Split(s, [c])[k]
  {
    SplitPiecesFree(s, [c], k);
    ContainsChar(Split(s, [c])[k], c);
  }

  /** The first piece of a split holds no character the string lacks. */
  lemma SplitFirstLacks(s: string, sep: string, c: char)
    requires |sep| > 0 && c !in s
    ensures c !in Split(s, sep)[0]
  {
    SplitFirstIsPrefix(s, sep);
    var p := Split(s, sep)[0];
    assert forall i :: 0 <= i < |p| ==> p[i] == s[i];
  }

  /** A string with no occurrence of the separator splits into itself alone. */
  lemma SplitWithout(s: string, sep: string)
    requires |sep| > 0
    requires !Contains(s, sep)
    ensures Split(s, sep) == [s]
  {
  }

  /** A string with no copy of `c` contains no string that starts with `c`. */
  lemma NoCharNoOccurrence(s: string, t: string)
    requires |t| > 0 && t[0] !in s
    ensures !Contains(s, t)
  {
    forall j: nat | j + |t| <= |s| ensures !OccursAt(s, t, j) {
      assert s[j..j + |t|][0] == s[j];
    }
  }

  /**
   * When `x` holds no copy of the separator's first character, the first
   * occurrence of the separator in `x + sep + y` is right after `x`.
   */
  /** `SplitCons` with the split of the rest already known. */
  lemma SplitConsKnown(x: string, sep: string, y: string, ys: seq<string>)
    requires |sep| > 0 && sep[0] !in x && Split(y, sep) == ys
    ensures Split(x + sep + y, sep) == [x] + ys
  {
    SplitCons(x, sep, y);
  }

  /** Two pieces free of the separator's first character, joined by it, split back apart. */
  lemma SplitTwo(b: string, sep: string, c: string)
    requires |sep| > 0 && sep[0] !in b && sep[0] !in c
    ensures Split(b + sep + c, sep) == [b, c]
  {
    SplitFree(c, sep);
    SplitConsKnown(b, sep, c, [c]);
  }

  /** Three such pieces. */
  lemma SplitThree(a: string, b: string, c: string, sep: string)
    requires |sep| > 0 && sep[0] !in a && sep[0] !in b && sep[0] !in c
    ensures Split(a + sep + b + sep + c, sep) == [a, b, c]
  {
    Regroup(a, sep, b, sep, c);
    SplitTwo(b, sep, c);
    SplitConsKnown(a, sep, b + sep + c, [b, c]);
  }

  /** Three such pieces, the last two grouped. */
  lemma SplitThreeRight(b: string, c: string, d: string, sep: string)
    requires |sep| > 0 && sep[0] !in b && sep[0] !in c && sep[0] !in d
    ensures Split(b + sep + (c + sep + d), sep) == [b, c, d]
  {
    SplitTwo(c, sep, d);
    SplitConsKnown(b, sep, c + sep + d, [c, d]);
  }

  /** Four such pieces, the last two grouped. */
  lemma SplitFour(a: string, b: string, c: string, d: string, sep: string)
    requires |sep| > 0 && sep[0] !in a && sep[0] !in b && sep[0] !in c && sep[0] !in d
    ensures Split(a + sep + b + sep + (c + sep + d), sep) == [a, b, c, d]
  {
    var bcd := b + sep + (c + sep + d);
    SplitThreeRight(b, c, d, sep);
    SplitConsKnown(a, sep, bcd, [b, c, d]);
    ConsFour(a, b, c, d);
    Regroup(a, sep, b, sep, c + sep + d);
  }

  lemma ConsFour(a: string, b: string, c: string, d: string)
    ensures [a] + [b, c, d] == [a, b, c, d]
  {
  }

  /** Moves the brackets of a five-part concatenation to the right. */
  lemma Regroup(a: string, b: string, c: string, d: string, e: string)
    ensures a + b + c + d + e == a + b + (c + d + e)
  {
  }

  /** An occurrence with none before it is the one `IndexOf` finds. */
  lemma IndexOfFirst(s: string, t: string, i: nat)
    requires OccursAt(s, t, i)
    requires forall j :: 0 <= j < i ==> !OccursAt(s, t, j)
    ensures IndexOf(s, t) == Some(i)
  {
  }

  lemma IndexAfterFree(x: string, sep: string, y: string)
    requires |sep| > 0 && sep[0] !in x
    ensures IndexOf(x + sep + y, sep) == Some(|x|)
  {
    var s := x + sep + y;
    assert s[|x|..|x| + |sep|] == sep;
    assert OccursAt(s, sep, |x|);
    forall j | 0 <= j < |x| ensures !OccursAt(s, sep, j) {
      assert s[j..j + |sep|][0] == s[j] == x[j];
    }
    IndexOfFirst(s, sep, |x|);
  }

  /** Splitting `x + sep + y` with a separator-free `x` peels off `x`. */
  lemma SplitCons(x: string, sep: string, y: string)
    requires |sep| > 0 && sep[0] !in x
    ensures Split(x + sep + y, sep) == [x] + Split(y, sep)
  {
    var s := x + sep + y;
    IndexAfterFree(x, sep, y);
    assert s[..|x|] == x;
    assert s[|x| + |sep|..] == y;
  }

  /** A string free of the separator's first character splits into itself. */
  lemma SplitFree(x: string, sep: string)
    requires |sep| > 0 && sep[0] !in x
    ensures Split(x, sep) == [x]
  {
    NoCharNoOccurrence(x, sep);
  }

  /** Appending more text never changes the first piece when `sep` already occurs. */
  lemma {:induction false} SplitFirstOfExtension(s: string, sep: string, t: string)
    requires |sep| > 0 && Contains(s, sep)
    ensures Split(s + t, sep)[0] == Split(s, sep)[0]
  {
    var i := IndexOf(s, sep).value;
    var u := s + t;
    assert u[i..i + |sep|] == s[i..i + |sep|];
    assert OccursAt(u, sep, i);
    forall j | 0 <= j < i ensures !OccursAt(u, sep, j) {
      assert !OccursAt(s, sep, j);
      assert j + |sep| <= |s|;
      assert u[j..j + |sep|] == s[j..j + |sep|];
    }
    IndexOfFirst(u, sep, i);
    assert u[..i] == s[..i];
  }

  /** The first piece of `s + [c] + q` is the first piece of `s`: what follows the first `c` is irrelevant. */
  lemma SplitFirstIgnoresTail(s: string, c: char, q: string)
    ensures Split(s + [c] + q, [c])[0] == Split(s, [c])[0]
  {
    ContainsChar(s, c);
    if c in s {
      assert s + [c] + q == s + ([c] + q);
      SplitFirstOfExtension(s, [c], [c] + q);
    } else {
      SplitCons(s, [c], q);
      SplitFree(s, [c]);
    }
  }

  /* ---------------- whitespace and case ---------------- */

  /** The characters `String.prototype.trim` strips (white space and line terminators). */
  predicate IsWhitespace(c: char) {
    c == ' ' || c == '\t' || c == '\n' || c == '\r' || c == '\U{000B}' || c == '\U{000C}'
    || c == '\U{00A0}' || c == '\U{1680}' || ('\U{2000}' <= c <= '\U{200A}')
    || c == '\U{2028}' || c == '\U{2029}' || c == '\U{202F}' || c == '\U{205F}'
    || c == '\U{3000}' || c == '\U{FEFF}'
  }

  function TrimStart(s: string): (r: string)
    ensures |r| <= |s| && EndsWith(s, r)
    ensures r == "" || !IsWhitespace(r[0])
  {
    if s != [] && IsWhitespace(s[0]) then TrimStart(s[1..]) else s
  }

  function TrimEnd(s: string): (r: string)
    ensures |r| <= |s| && StartsWith(s, r)
    ensures r == "" || !IsWhitespace(r[|r| - 1])
  {
    if s != [] && IsWhitespace(s[|s| - 1]) then TrimEnd(s[..|s| - 1]) else s
  }

  /** `s.trim()` */
  function Trim(s: string): string {
    TrimEnd(TrimStart(s))
  }

  predicate AllWhitespace(w: string) {
    forall i :: 0 <= i < |w| ==> IsWhitespace(w[i])
  }

  /** Upper-case ASCII letters map to lower case; every other character is kept. */
  function LowerChar(c: char): char {
    if 'A' <= c <= 'Z' then (c as int + 32) as char else c
  }

  /** `s.toLowerCase()` */
  function ToLower(s: string): (r: string)
    ensures |r| == |s|
    ensures forall i :: 0 <= i < |s| ==> r[i] == LowerChar(s[i])
  {
    MapChars(LowerChar, s)
  }

  function UpperChar(c: char): char {
    if 'a' <= c <= 'z' then (c as int - 32) as char else c
  }

  /** `s.toUpperCase()` on ASCII letters. */
  function ToUpper(s: string): (r: string)
    ensures |r| == |s|
    ensures forall i :: 0 <= i < |s| ==> r[i] == UpperChar(s[i])
  {
    MapChars(UpperChar, s)
  }

  /** `s` with `f` applied to every character. */
  function MapChars(f: char -> char, s: string): (r: string)
    ensures |r| == |s|
    ensures forall i :: 0 <= i < |s| ==> r[i] == f(s[i])
  {
    seq(|s|, i requires 0 <= i < |s| => f(s[i]))
  }

  /** Lower-casing keeps a prefix that is already in lower case. */
  lemma LowerKeepsPrefix(s: string, p: string)
    requires StartsWith(s, p) && ToLower(p) == p
    ensures StartsWith(ToLower(s), p)
  {
    assert ToLower(s)[..|p|] == ToLower(p);
  }

  /** Lower-casing forgets any earlier change of case. */
  lemma LowerAfterCase(s: string)
    ensures ToLower(ToUpper(s)) == ToLower(s)
    ensures ToLower(ToLower(s)) == ToLower(s)
  {
  }

  /* ---------------- facts about split, trim and case together ---------------- */

  /** A one-character string occurs exactly where that character is. */
  lemma OccursCharAt(s: string, c: char, j: nat)
    ensures OccursAt(s, [c], j) <==> j < |s| && s[j] == c
  {
    if j < |s| {
      assert s[j..j + 1] == [s[j]];
    }
  }

  /** Strings with the same occurrences of `t` have the same first one. */
  lemma IndexOfSameOccurrences(s: string, u: string, t: string)
    requires forall j: nat :: OccursAt(s, t, j) <==> OccursAt(u, t, j)
    ensures IndexOf(s, t) == IndexOf(u, t)
  {
  }

  /** Mapping characters in a way that keeps exactly the copies of `c` maps the first piece of the split on `c`. */
  lemma SplitFirstMapped(s: string, c: char, f: char -> char)
    requires forall x :: f(x) == c <==> x == c
    ensures Split(MapChars(f, s), [c])[0] == MapChars(f, Split(s, [c])[0])
  {
    var m := MapChars(f, s);
    forall j: nat ensures OccursAt(s, [c], j) <==> OccursAt(m, [c], j) {
      OccursCharAt(s, c, j);
      OccursCharAt(m, c, j);
    }
    IndexOfSameOccurrences(s, m, [c]);
    match IndexOf(s, [c])
    case None =>
    case Some(i) =>
      assert m[..i] == MapChars(f, s[..i]);
  }

  /** A prefix without `c` stays in front of the first piece of the split on `c`. */
  lemma SplitFirstPrefixFree(w: string, s: string, c: char)
    requires c !in w
    ensures Split(w + s, [c])[0] == w + Split(s, [c])[0]
  {
    var u := w + s;
    forall j: nat ensures OccursAt(u, [c], j) <==> j >= |w| && OccursAt(s, [c], j - |w|) {
      OccursCharAt(u, c, j);
      if j >= |w| {
        OccursCharAt(s, c, j - |w|);
      }
    }
    match IndexOf(s, [c])
    case None =>
      forall j: nat ensures !OccursAt(u, [c], j) {
        if j >= |w| {
          assert !OccursAt(s, [c], j - |w|);
        }
      }
    case Some(i) =>
      forall j | 0 <= j < i + |w| ensures !OccursAt(u, [c], j) {
        if j >= |w| {
          assert !OccursAt(s, [c], j - |w|);
        }
      }
      IndexOfFirst(u, [c], i + |w|);
      assert u[..i + |w|] == w + s[..i];
  }

  /** A suffix without `c` joins the first piece of the split on `c` only when `s` has no `c`. */
  lemma SplitFirstSuffixFree(s: string, w: string, c: char)
    requires c !in w
    ensures Split(s + w, [c])[0] == if c in s then Split(s, [c])[0] else s + w
  {
    ContainsChar(s, c);
    if c in s {
      SplitFirstOfExtension(s, [c], w);
    } else {
      SplitFree(s + w, [c]);
    }
  }

  /** Trimming commutes with a character map that keeps white space and non-white space apart. */
  lemma {:induction false} TrimStartMapped(s: string, f: char -> char)
    requires forall x :: IsWhitespace(f(x)) <==> IsWhitespace(x)
    ensures TrimStart(MapChars(f, s)) == MapChars(f, TrimStart(s))
    decreases |s|
  {
    if s != [] && IsWhitespace(s[0]) {
      assert MapChars(f, s)[1..] == MapChars(f, s[1..]);
      TrimStartMapped(s[1..], f);
    }
  }

  lemma {:induction false} TrimEndMapped(s: string, f: char -> char)
    requires forall x :: IsWhitespace(f(x)) <==> IsWhitespace(x)
    ensures TrimEnd(MapChars(f, s)) == MapChars(f, TrimEnd(s))
    decreases |s|
  {
    if s != [] && IsWhitespace(s[|s| - 1]) {
      assert MapChars(f, s)[..|s| - 1] == MapChars(f, s[..|s| - 1]);
      TrimEndMapped(s[..|s| - 1], f);
    }
  }

  lemma TrimMapped(s: string, f: char -> char)
    requires forall x :: IsWhitespace(f(x)) <==> IsWhitespace(x)
    ensures Trim(MapChars(f, s)) == MapChars(f, Trim(s))
  {
    TrimStartMapped(s, f);
    TrimEndMapped(TrimStart(s), f);
  }

  /** Leading white space is dropped by `trimStart`. */
  lemma {:induction false} TrimStartDropsWhitespace(w: string, s: string)
    requires AllWhitespace(w)
    ensures TrimStart(w + s) == TrimStart(s)
    decreases |w|
  {
    if w != [] {
      assert (w + s)[1..] == w[1..] + s;
      TrimStartDropsWhitespace(w[1..], s);
    } else {
      assert w + s == s;
    }
  }

  /** Trailing white space is dropped by `trimEnd`. */
  lemma {:induction false} TrimEndDropsWhitespace(s: string, w: string)
    requires AllWhitespace(w)
    ensures TrimEnd(s + w) == TrimEnd(s)
    decreases |w|
  {
    if w != [] {
      assert (s + w)[..|s + w| - 1] == s + w[..|w| - 1];
      TrimEndDropsWhitespace(s, w[..|w| - 1]);
    } else {
      assert s + w == s;
    }
  }

  /** `trimStart` of a longer string: the tail survives unless the whole front was white space. */
  lemma {:induction false} TrimStartOfAppend(s: string, w: string)
    ensures TrimStart(s + w) == if AllWhitespace(s) then TrimStart(w) else TrimStart(s) + w
    decreases |s|
  {
    if s == [] {
      assert s + w == w;
    } else if IsWhitespace(s[0]) {
      assert (s + w)[1..] == s[1..] + w;
      TrimStartOfAppend(s[1..], w);
      AllWhitespaceCons(s);
    } else {
      AllWhitespaceCons(s);
    }
  }

  lemma AllWhitespaceCons(s: string)
    requires |s| > 0
    ensures AllWhitespace(s) <==> IsWhitespace(s[0]) && AllWhitespace(s[1..])
  {
    if IsWhitespace(s[0]) && AllWhitespace(s[1..]) {
      forall i | 0 <= i < |s| ensures IsWhitespace(s[i]) {
        if i > 0 {
          assert s[i] == s[1..][i - 1];
        }
      }
    }
  }

  lemma {:induction false} TrimStartAllWhitespace(w: string)
    requires AllWhitespace(w)
    ensures TrimStart(w) == ""
    decreases |w|
  {
    if w != [] {
      TrimStartAllWhitespace(w[1..]);
    }
  }

  /** A string with no white space at either end is its own trim. */
  lemma TrimUnpadded(s: string)
    requires s != "" ==> !IsWhitespace(s[0]) && !IsWhitespace(s[|s| - 1])
    ensures Trim(s) == s
  {
    assert TrimStart(s) == s;
  }

  /** `trim` ignores white space added in front. */
  lemma TrimIgnoresLeading(w: string, s: string)
    requires AllWhitespace(w)
    ensures Trim(w + s) == Trim(s)
  {
    TrimStartDropsWhitespace(w, s);
  }

  /** `trim` ignores white space added behind. */
  lemma TrimIgnoresTrailing(s: string, w: string)
    requires AllWhitespace(w)
    ensures Trim(s + w) == Trim(s)
  {
    TrimStartOfAppend(s, w);
    if AllWhitespace(s) {
      TrimStartAllWhitespace(w);
      TrimStartAllWhitespace(s);
    } else {
      TrimEndDropsWhitespace(TrimStart(s), w);
    }
  }

  /* ---------------- numbers ---------------- */

  function DigitChar(d: nat): char
    requires d < 10
  {
    ('0' as int + d) as char
  }

  /** `String(n)` for a non-negative integer: its decimal digits, no leading zero. */
  function NatToString(n: nat): (r: string)
    ensures |r| >= 1
    ensures forall i :: 0 <= i < |r| ==> '0' <= r[i] <= '9'
    ensures |r| > 1 ==> r[0] != '0'
  {
    if n < 10 then [DigitChar(n)] else NatToString(n / 10) + [DigitChar(n % 10)]
  }

  /** `String(i)` for an integer. */
  function IntToString(i: int): (r: string)
    ensures |r| >= 1 && ' ' !in r
  {
    if i < 0 then "-" + NatToString(-i) else NatToString(i)
  }

  /** Reads decimal digits back into their value. */
  function ParseDigits(s: string): nat
    requires forall i :: 0 <= i < |s| ==> '0' <= s[i] <= '9'
  {
    if s == [] then 0 else ParseDigits(s[..|s| - 1]) * 10 + (s[|s| - 1] as int - '0' as int)
  }

  /** Printing a number in decimal loses nothing: the digits read back to the number. */
  lemma {:induction false} ParseNatToString(n: nat)
    ensures ParseDigits(NatToString(n)) == n
  {
    if n >= 10 {
      ParseNatToString(n / 10);
      var r := NatToString(n);
      assert r[..|r| - 1] == NatToString(n / 10);
    }
  }

  /**
   * `String(i)` is the digits of `i` without leading zeros, behind a '-'
   * when `i` is negative, and the digits read back to the magnitude.
   */
  lemma IntToStringDigits(i: int)
    ensures var r := IntToString(i);
      && (i >= 0 ==>
        && (forall k :: 0 <= k < |r| ==> '0' <= r[k] <= '9')
        && ParseDigits(r) == i
        && (|r| > 1 ==> r[0] != '0'))
      && (i < 0 ==>
        && |r| > 1 && r[0] == '-'
        && (forall k :: 1 <= k < |r| ==> '0' <= r[k] <= '9')
        && ParseDigits(r[1..]) == -i
        && (|r| > 2 ==> r[1] != '0'))
  {
    if i >= 0 {
      ParseNatToString(i);
    } else {
      ParseNatToString(-i);
      var digits := NatToString(-i);
      assert IntToString(i)[1..] == digits;
    }
  }

  /** Different numbers print differently. */
  lemma NatToStringInjective(m: nat, n: nat)
    requires NatToString(m) == NatToString(n)
    ensures m == n
  {
    ParseNatToString(m);
    ParseNatToString(n);
  }
}
