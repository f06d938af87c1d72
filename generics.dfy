/** The functions of generic-traits-lifetimes/src/main.rs that compute
    something: the two maximum scans, `longest` and its announcing variant,
    `first_word`, `Point3::mixup`, `Pair::{new, cmp_display}` and the
    default `summarize` of `Summary2` as `Tweet` gets it.
    A returned reference into a slice is modelled by the index it points at. */
module Generics {

  import opened Ints
  import opened Strings

  // ------------------------------------------------------- largest scans

  /** `largest_i32`: the position of the first greatest element. The
      slice must be non-empty (`list[0]` panics otherwise); the scan
      replaces its candidate only on a strictly greater item, so the first
      maximum wins. */
  method LargestI32(list: seq<I32>) returns (largest: nat)
    requires |list| > 0
    ensures largest < |list|
    ensures forall i :: 0 <= i < |list| ==> list[i] <= list[largest]
    ensures forall i :: 0 <= i < largest ==> list[i] < list[largest]
  {
    largest := 0;
    for i := 0 to |list|
      invariant largest <= i && largest < |list|
      invariant forall k :: 0 <= k < i ==> list[k] <= list[largest]
      invariant forall k :: 0 <= k < largest ==> list[k] < list[largest]
    {
      if list[i] > list[largest] {
        largest := i;
      }
    }
  }

  /** `largest_char`: the same scan over `char`, whose order is the order
      of code points. */
  method LargestChar(list: seq<char>) returns (largest: nat)
    requires |list| > 0
    ensures largest < |list|
    ensures forall i :: 0 <= i < |list| ==> list[i] <= list[largest]
    ensures forall i :: 0 <= i < largest ==> list[i] < list[largest]
  {
    largest := 0;
    for i := 0 to |list|
      invariant largest <= i && largest < |list|
      invariant forall k :: 0 <= k < i ==> list[k] <= list[largest]
      invariant forall k :: 0 <= k < largest ==> list[k] < list[largest]
    {
      if list[i] > list[largest] {
        largest := i;
      }
    }
  }

  /** The three properties the scans promise fix the position: only one
      index of a list is a first maximum. */
  lemma FirstMaximumUnique(list: seq<int>, p: nat, q: nat)
    requires p < |list| && q < |list|
    requires forall i :: 0 <= i < |list| ==> list[i] <= list[p] && list[i] <= list[q]
    requires forall i :: 0 <= i < p ==> list[i] < list[p]
    requires forall i :: 0 <= i < q ==> list[i] < list[q]
    ensures p == q
  {
    assert list[p] == list[q];
  }

  /** On `[34, 50, 25, 100, 65]`, the list `main` passes, the scan finds 100. */
  method LargestI32Example() returns (value: I32)
    ensures value == 100
  {
    var list: seq<I32> := [34, 50, 25, 100, 65];
    var i := LargestI32(list);
    assert list[3] <= list[i];
    value := list[i];
  }

  // -------------------------------------------------------------- longest

  /** `longest`: `x` when its UTF-8 byte length is greater, otherwise `y`. */
  function Longest(x: string, y: string): (r: string)
    ensures r == x || r == y
    ensures Utf8Len(r) >= Utf8Len(x) && Utf8Len(r) >= Utf8Len(y)
    ensures Utf8Len(x) == Utf8Len(y) ==> r == y
  {
    if Utf8Len(x) > Utf8Len(y) then x else y
  }

  /** `len` counts bytes, not characters: a string of fewer characters can
      be the longer one. */
  lemma LongestCountsBytes()
    ensures |"éé"| < |"abc"|
    ensures Longest("éé", "abc") == "éé"
  {
    assert Utf8Len("abc") == 3;
    assert Utf8Len("éé") == 4;
  }

  /** `longest_with_an_announcement`: prints the announcement (through its
      `Display` text `ann`), then returns what `longest` returns. */
  function LongestWithAnAnnouncement(x: string, y: string, ann: string): (r: (string, seq<string>))
    ensures r.0 == Longest(x, y)
    ensures r.1 == ["Announcement! " + ann]
  {
    (Longest(x, y), ["Announcement! " + ann])
  }

  // ----------------------------------------------------------- first_word

  /** The text before the first space, or all of `s`. */
  function BeforeFirstSpace(s: string): (w: string)
    ensures |w| <= |s| && w == s[..|w|]
    ensures ' ' !in w
    ensures |w| < |s| ==> s[|w|] == ' '
  {
    if s == [] || s[0] == ' ' then [] else [s[0]] + BeforeFirstSpace(s[1..])
  }

  /** `first_word`: scans for the first space and returns what precedes it.
      The source scans bytes; a space byte occurs in UTF-8 only as the
      encoding of `' '`, so scanning characters finds the same cut. */
  method FirstWord(s: string) returns (word: string)
    ensures word == BeforeFirstSpace(s)
  {
    for i := 0 to |s|
      invariant ' ' !in s[..i]
    {
      if s[i] == ' ' {
        BeforeFirstSpaceAt(s, i);
        return s[0..i];
      }
      assert s[..i + 1] == s[..i] + [s[i]];
    }
    BeforeFirstSpaceAt(s, |s|);
    return s;
  }

  /** The cut is at the first space: with no space before position `i` and a
      space (or the end) at `i`, the first word is `s[..i]`. */
  lemma {:induction false} BeforeFirstSpaceAt(s: string, i: nat)
    requires i <= |s| && ' ' !in s[..i]
    requires i < |s| ==> s[i] == ' '
    ensures BeforeFirstSpace(s) == s[..i]
  {
    if i > 0 {
      assert s[0] == s[..i][0];
      assert s[1..][..i - 1] == s[..i][1..];
      BeforeFirstSpaceAt(s[1..], i - 1);
      assert s[..i] == [s[0]] + s[1..][..i - 1];
    }
  }

  /** A space-free word followed by a space and anything is its own first word. */
  lemma FirstWordOfSentence(w: string, rest: string)
    requires ' ' !in w
    ensures BeforeFirstSpace(w + " " + rest) == w
  {
    var s := w + " " + rest;
    assert s[..|w|] == w;
    BeforeFirstSpaceAt(s, |w|);
  }

  // -------------------------------------------------------------- Point3

  datatype Point3<X, Y> = Point3(x: X, y: Y) {
    /** `mixup`: the `x` of this point with the `y` of `other`. */
    function Mixup<X2, Y2>(other: Point3<X2, Y2>): (r: Point3<X, Y2>)
      ensures r.x == x && r.y == other.y
    {
      Point3(x, other.y)
    }
  }

  /** Mixing a point with itself gives it back, and a chain of mixups keeps
      the first `x` and the last `y`. */
  lemma MixupLaws<A, B, C, D, E, F>(p: Point3<A, B>, q: Point3<C, D>, r: Point3<E, F>)
    ensures p.Mixup(p) == p
    ensures p.Mixup(q).Mixup(r) == p.Mixup(r)
  {
  }

  // ----------------------------------------------------------------- Pair

  datatype Pair<T> = Pair(x: T, y: T)

  /** `Pair::new`. */
  function NewPair<T>(x: T, y: T): (p: Pair<T>)
    ensures p.x == x && p.y == y
  {
    Pair(x, y)
  }

  /** `cmp_display`: the line it prints, naming `x` when `x >= y` under the
      type's `PartialOrd` (given as `ge`) and `y` otherwise, with the
      member's `Display` text (given as `show`). */
  function CmpDisplay<T>(p: Pair<T>, ge: (T, T) -> bool, show: T -> string): (line: string)
    ensures ge(p.x, p.y) ==> line == "The largest member is x = " + show(p.x)
    ensures !ge(p.x, p.y) ==> line == "The largest member is y = " + show(p.y)
  {
    "The largest member is " + if ge(p.x, p.y) then "x = " + show(p.x) else "y = " + show(p.y)
  }

  predicate IntGe(a: int, b: int) { a >= b }

  /** On integers the announced member holds the maximum of the two. */
  lemma CmpDisplayAnnouncesMaximum(x: int, y: int, show: int -> string)
    ensures var line := CmpDisplay(NewPair(x, y), IntGe, show);
      line == "The largest member is x = " + show(if x >= y then x else y)
      || line == "The largest member is y = " + show(if x >= y then x else y)
  {
  }

  // ---------------------------------------------------------------- Tweet

  datatype Tweet = Tweet(username: string, content: string, reply: bool, retweet: bool)

  /** `Summary2::summarize_author` for `Tweet`: the user's handle. */
  function SummarizeAuthor(tweet: Tweet): (author: string)
    ensures author == "@" + tweet.username
  {
    "@" + tweet.username
  }

  /** The default `Summary2::summarize`, given the implementor's author text. */
  function DefaultSummarize(author: string): string {
    "(Read more from " + author + "...)"
  }

  /** What `tweet.summarize()` returns. */
  function TweetSummary(tweet: Tweet): (r: string)
    ensures r == "(Read more from @" + tweet.username + "...)"
  {
    DefaultSummarize(SummarizeAuthor(tweet))
  }

  /** The summary names the user and nothing else about the tweet: two
      tweets have the same summary exactly when their users are the same. */
  lemma TweetSummaryNamesUser(a: Tweet, b: Tweet)
    ensures TweetSummary(a) == TweetSummary(b) <==> a.username == b.username
  {
    var prefix := "(Read more from @";
    if TweetSummary(a) == TweetSummary(b) {
      var sa, sb := TweetSummary(a), TweetSummary(b);
      assert |sa| == |prefix| + |a.username| + 4;
      assert |sb| == |prefix| + |b.username| + 4;
      assert a.username == sa[|prefix|..|prefix| + |a.username|];
      assert b.username == sb[|prefix|..|prefix| + |b.username|];
    }
  }
}
