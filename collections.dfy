/** The computations of common-collections/src/main.rs: the in-place
    `+= 50` over a vector, the word-count loop, the median and mode of a
    list in `main`, and `get_median_mode`. A `HashMap` is a `map`; the
    order in which its entries are visited is not modelled. */
module Collections {

  import opened Options
  import opened Ints
  import opened Sorting
  import opened Strings

  // ---------------------------------------------------- in-place update

  /** `for i in &mut v { *i += 50; }`: every element grows by 50, in place;
      the length and the order stay. The `i32` addition must not overflow. */
  method AddFifty(v: array<I32>)
    requires forall i :: 0 <= i < v.Length ==> v[i] + 50 <= I32_MAX
    modifies v
    ensures forall i :: 0 <= i < v.Length ==> v[i] == old(v[i]) + 50
  {
    for i := 0 to v.Length
      invariant forall k :: 0 <= k < i ==> v[k] == old(v[k]) + 50
      invariant forall k :: i <= k < v.Length ==> v[k] == old(v[k])
    {
      v[i] := v[i] + 50;
    }
  }

  /** The vector of `main`, `[100, 32, 57]`, becomes `[150, 82, 107]`. */
  method AddFiftyExample() returns (r: seq<I32>)
    ensures r == [150, 82, 107]
  {
    var v := new I32[3] [100, 32, 57];
    AddFifty(v);
    r := v[..];
  }

  // ------------------------------------------------------------- counting

  /** The map the `entry(..).or_insert(0) += 1` loop (or fold) builds from
      `xs`: a key for each distinct element, holding its number of
      occurrences and nothing else. */
  function Counts<T>(xs: seq<T>): map<T, nat> {
    if xs == [] then map[]
    else
      var m := Counts(xs[..|xs| - 1]);
      var x := xs[|xs| - 1];
      m[x := (if x in m then m[x] else 0) + 1]
  }

  /** The counts are the multiplicities: exactly the elements are keys, and
      each key holds its number of occurrences. */
  lemma {:induction false} CountsAreMultiplicities<T>(xs: seq<T>)
    ensures forall x :: x in Counts(xs) <==> x in multiset(xs)
    ensures forall x :: x in Counts(xs) ==> Counts(xs)[x] == multiset(xs)[x]
  {
    if xs != [] {
      var init, x := xs[..|xs| - 1], xs[|xs| - 1];
      assert xs == init + [x];
      CountsAreMultiplicities(init);
    }
  }

  /** One more element adds one to its count, creating the key if absent. */
  lemma CountsSnoc<T(!new)>(xs: seq<T>, x: T)
    ensures var m := Counts(xs);
      Counts(xs + [x]) == m[x := (if x in m then m[x] else 0) + 1]
  {
    assert (xs + [x])[..|xs|] == xs;
  }

  /** The example in the comment of `get_median_mode`. */
  lemma CountsExample()
    ensures Counts([1, 2, 2, 3]) == map[1 := 1, 2 := 2, 3 := 1]
  {
    var xs := [1, 2, 2, 3];
    CountsAreMultiplicities(xs);
    assert multiset(xs) == multiset{1, 2, 2, 3};
    assert Counts(xs).Keys == {1, 2, 3};
  }

  /** The words of the text in `main`, "hello world wonderful world". */
  lemma WordCountsExample()
    ensures Counts(["hello", "world", "wonderful", "world"]) == map["hello" := 1, "world" := 2, "wonderful" := 1]
  {
    var ws := ["hello", "world", "wonderful", "world"];
    CountsAreMultiplicities(ws);
    assert multiset(ws) == multiset{"hello", "world", "wonderful", "world"};
    assert Counts(ws).Keys == {"hello", "world", "wonderful"};
  }

  /** The word-count loop: counts the whitespace-separated words of `text`. */
  method WordCount(text: string) returns (counts: map<string, nat>)
    ensures var words := SplitWhitespace(text);
      && (forall w :: w in counts <==> w in words)
      && (forall w :: w in counts ==> counts[w] == multiset(words)[w])
  {
    var words := SplitWhitespace(text);
    counts := map[];
    for i := 0 to |words|
      invariant counts == Counts(words[..i])
    {
      var count := if words[i] in counts then counts[words[i]] else 0;
      assert words[..i + 1] == words[..i] + [words[i]];
      CountsSnoc(words[..i], words[i]);
      counts := counts[words[i] := count + 1];
    }
    assert words[..|words|] == words;
    CountsAreMultiplicities(words);
  }

  // ------------------------------------------------------- median, mode

  /** A non-empty map holds a key whose value no other key's exceeds. */
  lemma {:induction false} MaxCountExists<T>(m: map<T, nat>)
    requires m != map[]
    ensures exists k :: k in m && forall j :: j in m ==> m[j] <= m[k]
    decreases |m.Keys|
  {
    var y :| y in m;
    var rest := m - {y};
    assert forall j :: j in m && j != y ==> j in rest && rest[j] == m[j];
    if rest == map[] {
      assert forall j :: j in m ==> m[j] <= m[y];
    } else {
      assert |rest.Keys| < |m.Keys| by {
        assert rest.Keys == m.Keys - {y};
      }
      MaxCountExists(rest);
      var k :| k in rest && forall j :: j in rest ==> rest[j] <= rest[k];
      var best := if m[y] <= m[k] then k else y;
      assert forall j :: j in m ==> m[j] <= m[best];
    }
  }

  /** The median and mode in `main`: the median is the element at index
      `len / 2` of the list as it stands (`main` does not sort it); the mode
      loop keeps the first key, in map order, whose count beats all before
      it, so it ends on a value of greatest count. The list must be
      non-empty, as `list[median_length]` panics otherwise. */
  method MainMedianMode(list: seq<I32>) returns (median: I32, mode: I32)
    requires |list| > 0
    ensures median == list[|list| / 2]
    ensures mode in list
    ensures forall x :: x in list ==> multiset(list)[x] <= multiset(list)[mode]
  {
    median := list[|list| / 2];
    var modeMap: map<I32, nat> := map[];
    for i := 0 to |list|
      invariant modeMap == Counts(list[..i])
    {
      var count := if list[i] in modeMap then modeMap[list[i]] else 0;
      assert list[..i + 1] == list[..i] + [list[i]];
      CountsSnoc(list[..i], list[i]);
      modeMap := modeMap[list[i] := count + 1];
    }
    assert list[..|list|] == list;
    CountsAreMultiplicities(list);
    mode := 0;
    var modeTemp: nat := 0;
    var rest := modeMap.Keys;
    while rest != {}
      invariant rest <= modeMap.Keys
      invariant modeTemp > 0 ==> mode in modeMap && modeMap[mode] == modeTemp
      invariant forall k :: k in modeMap && k !in rest ==> modeMap[k] <= modeTemp
      decreases |rest|
    {
      var key :| key in rest;
      if modeMap[key] > modeTemp {
        modeTemp := modeMap[key];
        mode := key;
      }
      rest := rest - {key};
    }
    assert list[0] in multiset(list);
  }

  predicate Ascending(s: seq<int>) {
    forall i, j :: 0 <= i < j < |s| ==> s[i] <= s[j]
  }

  /** The exact median of an ascending list: the middle element, or the
      mean of the two middle elements when the length is even. */
  function Median(sorted: seq<int>): (m: real)
    requires |sorted| > 0
    ensures m == (sorted[(|sorted| - 1) / 2] + sorted[|sorted| / 2]) as real / 2.0
  {
    var mid := |sorted| / 2;
    if |sorted| % 2 == 0 then (sorted[mid - 1] + sorted[mid]) as real / 2.0
    else sorted[mid] as real
  }

  /** The median splits an ascending list in two: the first half (rounded
      up) lies at or below it and the second half (rounded up) at or above. */
  lemma MedianSplitsInHalves(sorted: seq<int>)
    requires |sorted| > 0 && Ascending(sorted)
    ensures forall i :: 0 <= i < |sorted| - |sorted| / 2 ==> sorted[i] as real <= Median(sorted)
    ensures forall i :: |sorted| / 2 <= i < |sorted| ==> Median(sorted) <= sorted[i] as real
  {
    var mid := |sorted| / 2;
    var lo, hi := sorted[(|sorted| - 1) / 2], sorted[mid];
    assert lo as real <= Median(sorted) <= hi as real;
    forall i | 0 <= i < |sorted| - mid ensures sorted[i] <= lo {
      assert i == (|sorted| - 1) / 2 || sorted[i] <= lo;
    }
    forall i | mid <= i < |sorted| ensures hi <= sorted[i] {
      assert i == mid || hi <= sorted[i];
    }
  }

  /** The median of `i32` values is within the `i32` range, so it always
      exists as a number even when the sum of the middle pair does not fit. */
  lemma MedianWithinI32(sorted: seq<I32>)
    requires |sorted| > 0
    ensures I32_MIN as real <= Median(sorted) <= I32_MAX as real
  {
  }

  /** `main` takes the element at `len / 2` without sorting; on an ascending
      list of odd length, such as the one `main` builds, that is the median
      of the sorted list. */
  lemma MainMedianIsMedian(list: seq<I32>)
    requires Ascending(list) && |list| % 2 == 1
    ensures list[|list| / 2] as real == Median(SortI32(list))
  {
    SortI32OfAscending(list);
  }

  /** Without sorting, the middle element need not be the median. */
  lemma MainMedianNeedsSortedInput()
    ensures var list: seq<I32> := [3, 1, 2];
      list[|list| / 2] as real != Median(SortI32(list))
  {
    SortThreeOneTwo();
    var sorted: seq<I32> := [1, 2, 3];
    assert Median(sorted) == 2.0;
  }

  /** Sorting `[3, 1, 2]` gives `[1, 2, 3]`. */
  lemma SortThreeOneTwo()
    ensures SortI32([3, 1, 2]) == [1, 2, 3]
  {
    var list: seq<I32>, sorted: seq<I32> := [3, 1, 2], [1, 2, 3];
    assert multiset(list) == multiset(sorted);
    assert Ascending(sorted) by {
      forall i, j | 0 <= i < j < 3 ensures sorted[i] <= sorted[j] {
      }
    }
    SortI32SameMultiset(list, sorted);
    SortI32OfAscending(sorted);
  }

  /** Sorting sees only the multiset of its input. */
  lemma SortI32SameMultiset(a: seq<I32>, b: seq<I32>)
    requires multiset(a) == multiset(b)
    ensures SortI32(a) == SortI32(b)
  {
    I32LeTotalOrder();
    SortedUnique(SortI32(a), SortI32(b), I32Le);
  }

  /** Sorting an ascending list leaves it as it is. */
  lemma SortI32OfAscending(list: seq<I32>)
    requires Ascending(list)
    ensures SortI32(list) == list
  {
    I32LeTotalOrder();
    SortedUnique(SortI32(list), list, I32Le);
  }

  /** The median step of `get_median_mode` as written: the middle pair is
      added in `i32`, which panics (debug) when the sum leaves the range. */
  function MedianAsWritten(sorted: seq<I32>): (r: Option<real>)
    requires |sorted| > 0
    ensures r.Some? ==> r.value == Median(sorted)
    ensures r.None? <==> (|sorted| % 2 == 0
      && !(I32_MIN <= sorted[|sorted| / 2 - 1] + sorted[|sorted| / 2] <= I32_MAX))
  {
    var mid := |sorted| / 2;
    if |sorted| % 2 == 0 then
      var sum := sorted[mid - 1] as int + sorted[mid] as int;
      if I32_MIN <= sum <= I32_MAX then Some(sum as real / 2.0) else None
    else Some(sorted[mid] as real)
  }

  /** Two large values overflow the `i32` sum although their median,
      `i32::MAX`, is representable. */
  lemma MedianAsWrittenOverflows()
    ensures MedianAsWritten([I32_MAX, I32_MAX]) == None
    ensures Median([I32_MAX, I32_MAX]) == I32_MAX as real
  {
  }

  /** `Ord for i32`. */
  predicate I32Le(a: I32, b: I32) { a <= b }

  lemma I32LeTotalOrder()
    ensures TotalOrder(I32Le)
  {
  }

  /** `sort_unstable` on `Vec<i32>`: the ascending permutation. */
  function SortI32(nums: seq<I32>): (r: seq<I32>)
    ensures Ascending(r)
    ensures multiset(r) == multiset(nums)
    ensures |r| == |nums|
  {
    I32LeTotalOrder();
    var r := SortBy(nums, I32Le);
    assert forall i, j :: 0 <= i < j < |r| ==> I32Le(r[i], r[j]);
    r
  }

  /** `get_median_mode`: sorts the numbers, takes the median of the sorted
      list, and as mode a value of greatest count (which of several such
      values `max_by_key` returns depends on the map's order). The input
      must be non-empty: both `nums[mid - 1]` and `unwrap` panic otherwise.
      The median is computed exactly, without the `i32` overflow of the
      source (see `MedianAsWritten`). */
  method GetMedianMode(nums: seq<I32>) returns (median: real, mode: I32)
    requires |nums| > 0
    ensures median == Median(SortI32(nums))
    ensures mode in nums
    ensures forall x :: x in nums ==> multiset(nums)[x] <= multiset(nums)[mode]
  {
    var sorted := SortI32(nums);
    median := Median(sorted);
    var counts := Counts(sorted);
    assert counts != map[] by {
      CountsAreMultiplicities(sorted);
      assert sorted[0] in multiset(sorted);
    }
    MaxCountExists(counts);
    mode :| mode in counts && forall j :: j in counts ==> counts[j] <= counts[mode];
    CountsAreMultiplicities(sorted);
    assert mode in multiset(sorted);
  }
}
