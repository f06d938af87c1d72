/** The `match` examples of enums-and-pattern-matching/src/main.rs:
    `value_in_cents` over `Coin` (with the line each arm prints) and
    `plus_one` over `Option<i32>`. */
module Enums {

  import opened Ints
  import opened Options

  /** The two states the source lists (it elides the rest). */
  datatype UsState = Alabama | Alaska

  datatype Coin = Penny | Nickel | Dime | Quarter(state: UsState)

  /** The `Debug` text of a state. */
  function StateName(state: UsState): string {
    match state
    case Alabama => "Alabama"
    case Alaska => "Alaska"
  }

  /** `value_in_cents`: the coin's value; every quarter is worth 25 whatever
      its state. */
  function ValueInCents(coin: Coin): (cents: U8)
    ensures coin.Penny? ==> cents == 1
    ensures coin.Nickel? ==> cents == 5
    ensures coin.Dime? ==> cents == 10
    ensures cents == 25 <==> coin.Quarter?
  {
    match coin
    case Penny => 1
    case Nickel => 5
    case Dime => 10
    case Quarter(_) => 25
  }

  /** The line each arm of `value_in_cents` prints; a quarter names its
      state. */
  function CentsAnnouncement(coin: Coin): (line: string)
    ensures coin.Quarter? ==> line == "State Quarter from " + StateName(coin.state) + "!"
    ensures coin.Penny? ==> line == "Lucky Penny!"
    ensures coin.Nickel? ==> line == "Five Cents!"
    ensures coin.Dime? ==> line == "Ten Cents!"
  {
    match coin
    case Penny => "Lucky Penny!"
    case Nickel => "Five Cents!"
    case Dime => "Ten Cents!"
    case Quarter(state) => "State Quarter from " + StateName(state) + "!"
  }

  /** The value tells the kind of coin: two coins are worth the same
      exactly when they are the same coin or both quarters. */
  lemma ValueIdentifiesKind(a: Coin, b: Coin)
    ensures ValueInCents(a) == ValueInCents(b) <==> a == b || (a.Quarter? && b.Quarter?)
  {
  }

  /** Each coin announces itself differently, so the printed line tells
      which arm ran, and for a quarter which state it came from. */
  lemma AnnouncementIdentifiesCoin(a: Coin, b: Coin)
    ensures CentsAnnouncement(a) == CentsAnnouncement(b) <==> a == b
  {
    if a != b {
      assert |CentsAnnouncement(a)| != |CentsAnnouncement(b)|;
    }
  }

  /** The call in `main`: an Alaska quarter is worth 25 and announces its state. */
  lemma AlaskaQuarter()
    ensures ValueInCents(Quarter(Alaska)) == 25
    ensures CentsAnnouncement(Quarter(Alaska)) == "State Quarter from Alaska!"
  {
  }

  /** `i + 1` stays within `i32`. */
  predicate IncrementFits(x: Option<I32>) {
    x.Some? ==> x.value < I32_MAX
  }

  /** `plus_one`: nothing stays nothing; a number goes up by one. */
  function PlusOne(x: Option<I32>): (r: Option<I32>)
    requires IncrementFits(x)
    ensures r.Some? <==> x.Some?
    ensures r.Some? ==> r.value == x.value + 1
  {
    match x
    case None => None
    case Some(i) => Some(i + 1)
  }

  /** `six` and `none` in `main`. */
  lemma PlusOneExamples()
    ensures PlusOne(Some(5)) == Some(6)
    ensures PlusOne(None) == None
  {
  }

  /** `plus_one` never maps two inputs to one output. */
  lemma PlusOneInjective(x: Option<I32>, y: Option<I32>)
    requires IncrementFits(x) && IncrementFits(y)
    requires PlusOne(x) == PlusOne(y)
    ensures x == y
  {
  }
}
