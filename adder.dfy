/** The library of tests-in-rust-adder/src/lib.rs: `add` and the private
    `internal_adder` over `usize`, `greeting`, `prints_and_returns_10`, and
    its own `Rectangle::can_hold`; the unit and integration tests become
    lemmas. An overflowing `usize` addition panics, so `add` requires the
    sum to fit. */
module Adder {

  import opened Ints

  predicate SumFits(left: USize, right: USize) {
    left + right < U64_LIMIT
  }

  /** `internal_adder`. */
  function InternalAdder(left: USize, right: USize): (sum: USize)
    requires SumFits(left, right)
    ensures sum == left + right
  {
    left + right
  }

  /** `add` delegates to `internal_adder`. */
  function Add(left: USize, right: USize): (sum: USize)
    requires SumFits(left, right)
    ensures sum == InternalAdder(left, right)
    ensures sum - right == left && sum - left == right
  {
    InternalAdder(left, right)
  }

  /** The tests `exploration`, `it_works`, `internal` and `it_adds_two`. */
  lemma AddTwoAndTwo()
    ensures Add(2, 2) == 4
    ensures InternalAdder(2, 2) == 4
  {
  }

  /** `sub` occurs in `s` starting at position `i`. */
  predicate OccursAt(s: string, sub: string, i: nat) {
    i + |sub| <= |s| && s[i..i + |sub|] == sub
  }

  /** `str::contains`. */
  ghost predicate Contains(s: string, sub: string) {
    exists i: nat :: OccursAt(s, sub, i)
  }

  /** `greeting`. */
  function Greeting(name: string): (text: string)
    ensures text == "Hello! " + name
  {
    "Hello! " + name
  }

  /** The test `greeting_contains_name`, for every name: the greeting
      contains the name, right after the fixed prefix. */
  lemma GreetingContainsName(name: string)
    ensures Contains(Greeting(name), name)
    ensures Greeting(name)[|Greeting(name)| - |name|..] == name
  {
    var text := Greeting(name);
    assert OccursAt(text, name, 7);
  }

  /** Different names give different greetings. */
  lemma GreetingInjective(a: string, b: string)
    requires Greeting(a) == Greeting(b)
    ensures a == b
  {
    assert a == Greeting(a)[7..] && b == Greeting(b)[7..];
  }

  /** `prints_and_returns_10`: whatever it is given, it returns 10. */
  function PrintsAndReturns10(a: I32): (r: I32)
    ensures r == 10
  {
    10
  }

  /** The test `this_test_will_pass`; the ignored test expecting 5 would fail. */
  lemma PrintsAndReturns10Tests()
    ensures PrintsAndReturns10(4) == 10
    ensures PrintsAndReturns10(8) != 5
  {
  }

  datatype Rectangle = Rectangle(width: U32, height: U32) {
    /** `can_hold`: strictly wider and strictly taller, so a rectangle that
        holds another has no zero side. */
    predicate CanHold(other: Rectangle): (holds: bool)
      ensures holds <==> width > other.width && height > other.height
      ensures holds ==> width > 0 && height > 0
    {
      width > other.width && height > other.height
    }
  }

  /** The tests `larger_can_hold_smaller` and `smaller_cannot_hold_larger`. */
  lemma CanHoldTests()
    ensures Rectangle(8, 7).CanHold(Rectangle(5, 1))
    ensures !Rectangle(5, 1).CanHold(Rectangle(8, 7))
  {
  }

  /** `can_hold` is asymmetric, which the second test checks on one pair. */
  lemma CanHoldAsymmetric(a: Rectangle, b: Rectangle)
    ensures a.CanHold(b) ==> !b.CanHold(a)
    ensures !a.CanHold(a)
  {
  }
}
