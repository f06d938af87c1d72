/** The pieces of Rust's `str` API the modelled programs rely on: Unicode
    white space (`char::is_whitespace`), `trim`, `split_whitespace`, the
    ordering of `String` and the UTF-8 byte length `len`.
    Strings are sequences of Unicode scalar values. */
module Strings {

  import opened Sorting

  /** The Unicode White_Space property, which `split_whitespace` and `trim` use. */
  predicate IsWhitespace(c: char) {
    var n := c as int;
    || 9 <= n <= 13
    || n == 0x20
    || n == 0x85
    || n == 0xA0
    || n == 0x1680
    || 0x2000 <= n <= 0x200A
    || n == 0x2028
    || n == 0x2029
    || n == 0x202F
    || n == 0x205F
    || n == 0x3000
  }

  /** A token `split_whitespace` can produce: non-empty, no white space. */
  predicate IsWord(w: string) {
    w != [] && forall i :: 0 <= i < |w| ==> !IsWhitespace(w[i])
  }

  // ---------------------------------------------------------------- trim

  /** `trim_start`: drops the leading white space. */
  function TrimStart(s: string): (r: string)
    ensures |r| <= |s| && r == s[|s| - |r|..]
    ensures forall i :: 0 <= i < |s| - |r| ==> IsWhitespace(s[i])
    ensures r == [] || !IsWhitespace(r[0])
  {
    if s != [] && IsWhitespace(s[0]) then TrimStart(s[1..]) else s
  }

  /** `trim_end`: drops the trailing white space. */
  function TrimEnd(s: string): (r: string)
    ensures |r| <= |s| && r == s[..|r|]
    ensures forall i :: |r| <= i < |s| ==> IsWhitespace(s[i])
    ensures r == [] || !IsWhitespace(r[|r| - 1])
  {
    if s != [] && IsWhitespace(s[|s| - 1]) then TrimEnd(s[..|s| - 1]) else s
  }

  /** `trim`: drops white space at both ends. */
  function Trim(s: string): (r: string)
    ensures r == [] || (!IsWhitespace(r[0]) && !IsWhitespace(r[|r| - 1]))
  {
    TrimEnd(TrimStart(s))
  }

  // ---------------------------------------------------- split_whitespace

  /** Length of the longest white-space-free prefix of `s`. */
  function TokenLength(s: string): (n: nat)
    ensures n <= |s|
    ensures forall i :: 0 <= i < n ==> !IsWhitespace(s[i])
    ensures n == |s| || IsWhitespace(s[n])
  {
    if s == [] || IsWhitespace(s[0]) then 0 else 1 + TokenLength(s[1..])
  }

  /** `split_whitespace`: the maximal runs of non-white-space characters, in order. */
  function SplitWhitespace(s: string): (words: seq<string>)
    ensures forall i :: 0 <= i < |words| ==> IsWord(words[i])
    decreases |s|
  {
    if s == [] then []
    else if IsWhitespace(s[0]) then SplitWhitespace(s[1..])
    else
      var n := TokenLength(s);
      [s[..n]] + SplitWhitespace(s[n..])
  }

  /** Words joined by single spaces: the shape of a typed command line. */
  function Unwords(words: seq<string>): string {
    if words == [] then []
    else if |words| == 1 then words[0]
    else words[0] + " " + Unwords(words[1..])
  }

  /** White space (or the end) right after `s` does not lengthen its first token. */
  lemma {:induction false} TokenLengthAppend(s: string, rest: string)
    requires rest == [] || IsWhitespace(rest[0])
    ensures TokenLength(s + rest) == TokenLength(s)
  {
    if s == [] {
      assert s + rest == rest;
    } else if !IsWhitespace(s[0]) {
      assert (s + rest)[1..] == s[1..] + rest;
      TokenLengthAppend(s[1..], rest);
    }
  }

  lemma TokenLengthOfWord(w: string, rest: string)
    requires IsWord(w)
    requires rest == [] || IsWhitespace(rest[0])
    ensures TokenLength(w + rest) == |w|
  {
    TokenLengthAppend(w, rest);
  }

  /** Splitting words that were joined with spaces gives the words back. */
  lemma {:induction false} SplitUnwords(words: seq<string>)
    requires forall i :: 0 <= i < |words| ==> IsWord(words[i])
    ensures SplitWhitespace(Unwords(words)) == words
  {
    if words == [] {
    } else if |words| == 1 {
      var w := words[0];
      TokenLengthOfWord(w, []);
      assert w + [] == w;
      assert w[|w|..] == [];
    } else {
      var w := words[0];
      var tail := " " + Unwords(words[1..]);
      var s := w + tail;
      assert Unwords(words) == s;
      TokenLengthOfWord(w, tail);
      assert s[..|w|] == w;
      assert s[|w|..] == tail;
      assert tail[1..] == Unwords(words[1..]);
      SplitUnwords(words[1..]);
      assert words == [w] + words[1..];
    }
  }

  /** Leading white space never changes the words. */
  lemma {:induction false} SplitSkipsLeadingWhitespace(s: string)
    ensures SplitWhitespace(TrimStart(s)) == SplitWhitespace(s)
  {
    if s != [] && IsWhitespace(s[0]) {
      SplitSkipsLeadingWhitespace(s[1..]);
    }
  }

  /** Trailing white space never changes the words. */
  lemma {:induction false} SplitIgnoresTrailingWhitespace(s: string, ws: string)
    requires forall i :: 0 <= i < |ws| ==> IsWhitespace(ws[i])
    ensures SplitWhitespace(s + ws) == SplitWhitespace(s)
    decreases |s|
  {
    if s == [] {
      assert s + ws == ws;
      AllWhitespaceSplitsToNothing(ws);
    } else if IsWhitespace(s[0]) {
      assert (s + ws)[1..] == s[1..] + ws;
      SplitIgnoresTrailingWhitespace(s[1..], ws);
    } else {
      var n := TokenLength(s);
      TokenLengthAppend(s, ws);
      assert (s + ws)[..n] == s[..n];
      assert (s + ws)[n..] == s[n..] + ws;
      SplitIgnoresTrailingWhitespace(s[n..], ws);
    }
  }

  lemma {:induction false} AllWhitespaceSplitsToNothing(ws: string)
    requires forall i :: 0 <= i < |ws| ==> IsWhitespace(ws[i])
    ensures SplitWhitespace(ws) == []
  {
    if ws != [] {
      AllWhitespaceSplitsToNothing(ws[1..]);
    }
  }

  /** `trim` before `split_whitespace` does not change the words. */
  lemma SplitTrim(s: string)
    ensures SplitWhitespace(Trim(s)) == SplitWhitespace(s)
  {
    var t := TrimStart(s);
    var r := TrimEnd(t);
    assert t == r + t[|r|..];
    SplitIgnoresTrailingWhitespace(r, t[|r|..]);
    SplitSkipsLeadingWhitespace(s);
  }

  // ------------------------------------------------------------ ordering

  /** `a <= b` for Rust `String`s: byte-wise lexicographic order of the UTF-8
      encodings, which is the lexicographic order of the code points. */
  predicate StrLe(a: string, b: string) {
    a == [] || (b != [] && (a[0] < b[0] || (a[0] == b[0] && StrLe(a[1..], b[1..]))))
  }

  /** `a < b` for Rust `String`s. */
  predicate StrLt(a: string, b: string) {
    StrLe(a, b) && a != b
  }

  lemma {:induction false} StrLeAntisymmetric(a: string, b: string)
    requires StrLe(a, b) && StrLe(b, a)
    ensures a == b
  {
    if a != [] && b != [] {
      StrLeAntisymmetric(a[1..], b[1..]);
      assert a == [a[0]] + a[1..] && b == [b[0]] + b[1..];
    }
  }

  lemma {:induction false} StrLeTransitive(a: string, b: string, c: string)
    requires StrLe(a, b) && StrLe(b, c)
    ensures StrLe(a, c)
  {
    if a != [] && b != [] && c != [] && a[0] == b[0] == c[0] {
      StrLeTransitive(a[1..], b[1..], c[1..]);
    }
  }

  lemma {:induction false} StrLeTotal(a: string, b: string)
    ensures StrLe(a, b) || StrLe(b, a)
  {
    if a != [] && b != [] && a[0] == b[0] {
      StrLeTotal(a[1..], b[1..]);
    }
  }

  /** The `String` order is a total order, so `sort` on strings is well defined. */
  lemma StrLeTotalOrder()
    ensures TotalOrder(StrLe)
  {
    forall a, b | StrLe(a, b) && StrLe(b, a) ensures a == b {
      StrLeAntisymmetric(a, b);
    }
    forall a, b, c | StrLe(a, b) && StrLe(b, c) ensures StrLe(a, c) {
      StrLeTransitive(a, b, c);
    }
    forall a, b ensures StrLe(a, b) || StrLe(b, a) {
      StrLeTotal(a, b);
    }
  }

  /** `sort` on a `Vec<String>`. */
  function SortStrings(xs: seq<string>): (r: seq<string>)
    ensures SortedBy(r, StrLe)
    ensures multiset(r) == multiset(xs)
  {
    StrLeTotalOrder();
    SortBy(xs, StrLe)
  }

  /** Strictly ascending: sorted and free of duplicates. */
  predicate StrictlyAscending(s: seq<string>) {
    forall i, j :: 0 <= i < j < |s| ==> StrLt(s[i], s[j])
  }

  /** A strictly ascending list holds each element once. */
  lemma {:induction false} StrictlyAscendingCountsOne(s: seq<string>)
    requires StrictlyAscending(s)
    ensures forall v :: multiset(s)[v] <= 1
  {
    if s != [] {
      StrictlyAscendingCountsOne(s[1..]);
      assert s == [s[0]] + s[1..];
      assert s[0] !in s[1..] by {
        forall k | 0 <= k < |s[1..]| ensures s[1..][k] != s[0] {
          assert StrLt(s[0], s[k + 1]);
        }
      }
      assert multiset(s) == multiset{s[0]} + multiset(s[1..]);
    }
  }

  /** An ascending list that holds each element at most once is strictly ascending. */
  lemma SortedWithoutRepeatsIsStrict(s: seq<string>)
    requires SortedBy(s, StrLe)
    requires forall v :: multiset(s)[v] <= 1
    ensures StrictlyAscending(s)
  {
    forall i, j | 0 <= i < j < |s| ensures s[i] != s[j] {
      if s[i] == s[j] {
        RepeatCountsTwice(s, i, j);
      }
    }
  }

  lemma RepeatCountsTwice(s: seq<string>, i: nat, j: nat)
    requires i < j < |s| && s[i] == s[j]
    ensures multiset(s)[s[i]] >= 2
  {
    assert s == s[..j] + s[j..];
    assert s[i] in multiset(s[..j]);
    assert s[j] in multiset(s[j..]);
    assert multiset(s) == multiset(s[..j]) + multiset(s[j..]);
  }

  /** Two strictly ascending lists with the same elements are equal. */
  lemma {:induction false} StrictlyAscendingUnique(a: seq<string>, b: seq<string>)
    requires StrictlyAscending(a) && StrictlyAscending(b)
    requires forall x :: x in a <==> x in b
    ensures a == b
  {
    if a == [] {
      assert forall k :: 0 <= k < |b| ==> b[k] in b;
    } else {
      assert a[0] in b;
      assert b != [];
      assert b[0] in a;
      var i :| 0 <= i < |b| && b[i] == a[0];
      var j :| 0 <= j < |a| && a[j] == b[0];
      StrLeTotal(a[0], a[0]);
      assert StrLe(b[0], a[0]) by { if i != 0 { assert StrLt(b[0], b[i]); } }
      assert StrLe(a[0], b[0]) by { if j != 0 { assert StrLt(a[0], a[j]); } }
      StrLeAntisymmetric(a[0], b[0]);
      forall x ensures x in a[1..] <==> x in b[1..] {
        TailMembership(a, x);
        TailMembership(b, x);
      }
      StrictlyAscendingUnique(a[1..], b[1..]);
      assert a == [a[0]] + a[1..] && b == [b[0]] + b[1..];
    }
  }

  lemma TailMembership(s: seq<string>, x: string)
    requires StrictlyAscending(s) && s != []
    ensures x in s[1..] <==> x in s && x != s[0]
  {
    if x in s[1..] {
      var k :| 0 <= k < |s[1..]| && s[1..][k] == x;
      assert StrLt(s[0], s[k + 1]);
    }
    if x in s && x != s[0] {
      var k :| 0 <= k < |s| && s[k] == x;
      assert s[1..][k - 1] == x;
    }
  }

  // -------------------------------------------------------- UTF-8 length

  /** Number of bytes UTF-8 uses for one code point. */
  function Utf8Width(c: char): (n: nat)
    ensures 1 <= n <= 4
  {
    var v := c as int;
    if v < 0x80 then 1 else if v < 0x800 then 2 else if v < 0x1_0000 then 3 else 4
  }

  /** `str::len`: the length in bytes of the UTF-8 encoding. */
  function Utf8Len(s: string): (n: nat)
    ensures |s| <= n <= 4 * |s|
  {
    if s == [] then 0 else Utf8Width(s[0]) + Utf8Len(s[1..])
  }

  lemma {:induction false} Utf8LenConcat(a: string, b: string)
    ensures Utf8Len(a + b) == Utf8Len(a) + Utf8Len(b)
  {
    if a != [] {
      assert (a + b)[1..] == a[1..] + b;
      Utf8LenConcat(a[1..], b);
    } else {
      assert a + b == b;
    }
  }
}
