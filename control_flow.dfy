/** The loops of common-prg-concepts/src/main.rs: the value-returning
    `loop`, the labelled nested loops, the countdowns by `while` and by a
    reversed range, the walk over an array, and the iterative `fibonacci`.
    What a loop prints is returned as a sequence of lines. */
module ControlFlow {

  import opened Ints

  // ------------------------------------------------------------ display

  function DigitChar(d: nat): char
    requires d < 10
  {
    ('0' as int + d) as char
  }

  /** The `Display` text of a natural number: decimal, no leading zeros. */
  function Decimal(n: nat): (s: string)
    ensures |s| > 0 && (|s| == 1 <==> n < 10)
    ensures forall i :: 0 <= i < |s| ==> '0' <= s[i] <= '9'
    ensures |s| > 1 ==> s[0] != '0'
  {
    if n < 10 then [DigitChar(n)] else Decimal(n / 10) + [DigitChar(n % 10)]
  }

  /** Different numbers are displayed differently. */
  lemma {:induction false} DecimalInjective(m: nat, n: nat)
    requires Decimal(m) == Decimal(n)
    ensures m == n
    decreases m + n
  {
    var a, b := Decimal(m), Decimal(n);
    if m >= 10 && n >= 10 {
      assert a[..|a| - 1] == Decimal(m / 10) && b[..|b| - 1] == Decimal(n / 10);
      DecimalInjective(m / 10, n / 10);
      assert a[|a| - 1] == DigitChar(m % 10) && b[|b| - 1] == DigitChar(n % 10);
    }
  }

  // ------------------------------------------------------- simple loops

  /** The value-returning `loop`: `counter` climbs to 10 and the loop
      breaks with `counter * 2`. */
  method LoopWithValue() returns (result: int, counter: int)
    ensures counter == 10 && result == 20
  {
    counter := 0;
    while true
      invariant 0 <= counter < 10
      decreases 10 - counter
    {
      counter := counter + 1;
      if counter == 10 {
        result := counter * 2;
        break;
      }
    }
  }

  /** The lines of one whole round of the outer loop for `count`. */
  function Round(count: nat): seq<string> {
    ["count = " + Decimal(count), "remaining = " + Decimal(10), "remaining = " + Decimal(9)]
  }

  /** The lines of the first `n` whole rounds. */
  function Rounds(n: nat): seq<string> {
    if n == 0 then [] else Rounds(n - 1) + Round(n - 1)
  }

  /** The labelled loops: each round prints `count`, then the inner loop
      prints `remaining` and breaks at 9; in the round where `count` is 2
      the inner loop leaves the outer one before `remaining` drops, so the
      final count is 2. */
  method LabelledLoops() returns (count: nat, lines: seq<string>)
    ensures count == 2
    ensures lines == Rounds(2) + ["count = " + Decimal(2), "remaining = " + Decimal(10), "End count = " + Decimal(2)]
  {
    count := 0;
    lines := [];
    label countingUp: while true
      invariant count <= 2
      invariant lines == Rounds(count)
      decreases 2 - count
    {
      lines := lines + ["count = " + Decimal(count)];
      var remaining := 10;
      while true
        invariant remaining == 10 || remaining == 9
        invariant remaining == 9 ==> count != 2
        invariant lines == Rounds(count) + ["count = " + Decimal(count)]
          + (if remaining == 9 then ["remaining = " + Decimal(10)] else [])
        decreases remaining
      {
        lines := lines + ["remaining = " + Decimal(remaining)];
        if remaining == 9 {
          assert lines == Rounds(count + 1);
          break;
        }
        if count == 2 {
          break countingUp;
        }
        remaining := remaining - 1;
      }
      count := count + 1;
    }
    lines := lines + ["End count = " + Decimal(count)];
  }

  /** The printed round lines spelled out. */
  lemma LabelledLoopsLines()
    ensures Rounds(2) + ["count = " + Decimal(2), "remaining = " + Decimal(10), "End count = " + Decimal(2)]
      == ["count = 0", "remaining = 10", "remaining = 9",
          "count = 1", "remaining = 10", "remaining = 9",
          "count = 2", "remaining = 10", "End count = 2"]
  {
    assert "count = " + Decimal(0) == "count = 0";
    assert "count = " + Decimal(1) == "count = 1";
    assert "count = " + Decimal(2) == "count = 2";
    assert "remaining = " + Decimal(10) == "remaining = 10";
    assert "remaining = " + Decimal(9) == "remaining = 9";
    assert "End count = " + Decimal(2) == "End count = 2";
  }

  // ----------------------------------------------------------- countdown

  /** The lines `number = hi`, ..., `number = lo + 1`, counting down. */
  function CountdownLines(hi: nat, lo: nat): seq<string>
    decreases hi
  {
    if hi <= lo then [] else ["number = " + Decimal(hi)] + CountdownLines(hi - 1, lo)
  }

  /** Counting one step further down adds one line at the end. */
  lemma {:induction false} CountdownLinesExtend(hi: nat, lo: nat)
    requires 0 < lo <= hi
    ensures CountdownLines(hi, lo - 1) == CountdownLines(hi, lo) + ["number = " + Decimal(lo)]
    decreases hi
  {
    if hi > lo {
      CountdownLinesExtend(hi - 1, lo);
    }
  }

  /** The `while number != 0` countdown: three lines, three iterations,
      and `number` ends at 0. */
  method WhileCountdown() returns (number: nat, iterations: nat, lines: seq<string>)
    ensures number == 0 && iterations == 3
    ensures lines == CountdownLines(3, 0) + ["LIFTOFF!!!"]
  {
    number, iterations, lines := 3, 0, [];
    while number != 0
      invariant number <= 3
      invariant iterations == 3 - number
      invariant lines == CountdownLines(3, number)
    {
      CountdownLinesExtend(3, number);
      lines := lines + ["number = " + Decimal(number)];
      number := number - 1;
      iterations := iterations + 1;
    }
    lines := lines + ["LIFTOFF!!!"];
  }

  /** The countdown over `(1..4).rev()` prints what the `while` one does. */
  method ForCountdown() returns (lines: seq<string>)
    ensures lines == CountdownLines(3, 0) + ["LIFTOFF!!!"]
  {
    lines := [];
    for number := 4 downto 1
      invariant lines == CountdownLines(3, number - 1)
    {
      CountdownLinesExtend(3, number);
      lines := lines + ["number = " + Decimal(number)];
    }
    lines := lines + ["LIFTOFF!!!"];
  }

  /** Both countdowns print 3, 2, 1. */
  lemma CountdownLinesSpelledOut()
    ensures CountdownLines(3, 0) == ["number = 3", "number = 2", "number = 1"]
  {
    assert Decimal(3) == "3" && Decimal(2) == "2" && Decimal(1) == "1";
    assert "number = " + Decimal(3) == "number = 3";
    assert "number = " + Decimal(2) == "number = 2";
    assert "number = " + Decimal(1) == "number = 1";
  }

  // ---------------------------------------------------------- array walk

  /** The lines `the value is: v`, one per element, in order. */
  function ValueLines(a: seq<nat>): (lines: seq<string>)
    ensures |lines| == |a|
    ensures forall i :: 0 <= i < |a| ==> lines[i] == "the value is: " + Decimal(a[i])
  {
    if a == [] then [] else ValueLines(a[..|a| - 1]) + ["the value is: " + Decimal(a[|a| - 1])]
  }

  /** The `while index < 5` walk over an array: each element once, in order. */
  method WalkArray(a: array<nat>) returns (lines: seq<string>)
    ensures lines == ValueLines(a[..])
  {
    var index := 0;
    lines := [];
    while index < a.Length
      invariant 0 <= index <= a.Length
      invariant lines == ValueLines(a[..index])
    {
      assert a[..index + 1][..index] == a[..index];
      lines := lines + ["the value is: " + Decimal(a[index])];
      index := index + 1;
    }
    assert a[..a.Length] == a[..];
  }

  // ----------------------------------------------------------- fibonacci

  /** The Fibonacci numbers, F(0) = 0, F(1) = 1. */
  function Fib(n: nat): nat {
    if n <= 1 then n else Fib(n - 1) + Fib(n - 2)
  }

  lemma {:induction false} FibMonotone(m: nat, n: nat)
    requires m <= n
    ensures Fib(m) <= Fib(n)
    decreases n - m
  {
    if m < n {
      FibMonotone(m + 1, n);
      assert Fib(m) <= Fib(m + 1);
    }
  }

  /** The next Fibonacci number from two known neighbours. */
  lemma FibStep(j: nat, a: nat, b: nat)
    requires Fib(j) == a && Fib(j + 1) == b
    ensures Fib(j + 2) == a + b
  {
  }

  // F(j) and F(j + 1) at every tenth j, each from the one before.

  lemma FibAt10()
    ensures Fib(10) == 55 && Fib(11) == 89
  {
    FibStep(0, 0, 1);
    FibStep(1, 1, 1);
    FibStep(2, 1, 2);
    FibStep(3, 2, 3);
    FibStep(4, 3, 5);
    FibStep(5, 5, 8);
    FibStep(6, 8, 13);
    FibStep(7, 13, 21);
    FibStep(8, 21, 34);
    FibStep(9, 34, 55);
  }

  lemma FibAt20()
    ensures Fib(20) == 6765 && Fib(21) == 10946
  {
    FibAt10();
    FibStep(10, 55, 89);
    FibStep(11, 89, 144);
    FibStep(12, 144, 233);
    FibStep(13, 233, 377);
    FibStep(14, 377, 610);
    FibStep(15, 610, 987);
    FibStep(16, 987, 1597);
    FibStep(17, 1597, 2584);
    FibStep(18, 2584, 4181);
    FibStep(19, 4181, 6765);
  }

  lemma FibAt30()
    ensures Fib(30) == 832040 && Fib(31) == 1346269
  {
    FibAt20();
    FibStep(20, 6765, 10946);
    FibStep(21, 10946, 17711);
    FibStep(22, 17711, 28657);
    FibStep(23, 28657, 46368);
    FibStep(24, 46368, 75025);
    FibStep(25, 75025, 121393);
    FibStep(26, 121393, 196418);
    FibStep(27, 196418, 317811);
    FibStep(28, 317811, 514229);
    FibStep(29, 514229, 832040);
  }

  lemma FibAt40()
    ensures Fib(40) == 102334155 && Fib(41) == 165580141
  {
    FibAt30();
    FibStep(30, 832040, 1346269);
    FibStep(31, 1346269, 2178309);
    FibStep(32, 2178309, 3524578);
    FibStep(33, 3524578, 5702887);
    FibStep(34, 5702887, 9227465);
    FibStep(35, 9227465, 14930352);
    FibStep(36, 14930352, 24157817);
    FibStep(37, 24157817, 39088169);
    FibStep(38, 39088169, 63245986);
    FibStep(39, 63245986, 102334155);
  }

  lemma FibAt50()
    ensures Fib(50) == 12586269025 && Fib(51) == 20365011074
  {
    FibAt40();
    FibStep(40, 102334155, 165580141);
    FibStep(41, 165580141, 267914296);
    FibStep(42, 267914296, 433494437);
    FibStep(43, 433494437, 701408733);
    FibStep(44, 701408733, 1134903170);
    FibStep(45, 1134903170, 1836311903);
    FibStep(46, 1836311903, 2971215073);
    FibStep(47, 2971215073, 4807526976);
    FibStep(48, 4807526976, 7778742049);
    FibStep(49, 7778742049, 12586269025);
  }

  lemma FibAt60()
    ensures Fib(60) == 1548008755920 && Fib(61) == 2504730781961
  {
    FibAt50();
    FibStep(50, 12586269025, 20365011074);
    FibStep(51, 20365011074, 32951280099);
    FibStep(52, 32951280099, 53316291173);
    FibStep(53, 53316291173, 86267571272);
    FibStep(54, 86267571272, 139583862445);
    FibStep(55, 139583862445, 225851433717);
    FibStep(56, 225851433717, 365435296162);
    FibStep(57, 365435296162, 591286729879);
    FibStep(58, 591286729879, 956722026041);
    FibStep(59, 956722026041, 1548008755920);
  }

  lemma FibAt70()
    ensures Fib(70) == 190392490709135 && Fib(71) == 308061521170129
  {
    FibAt60();
    FibStep(60, 1548008755920, 2504730781961);
    FibStep(61, 2504730781961, 4052739537881);
    FibStep(62, 4052739537881, 6557470319842);
    FibStep(63, 6557470319842, 10610209857723);
    FibStep(64, 10610209857723, 17167680177565);
    FibStep(65, 17167680177565, 27777890035288);
    FibStep(66, 27777890035288, 44945570212853);
    FibStep(67, 44945570212853, 72723460248141);
    FibStep(68, 72723460248141, 117669030460994);
    FibStep(69, 117669030460994, 190392490709135);
  }

  lemma FibAt80()
    ensures Fib(80) == 23416728348467685 && Fib(81) == 37889062373143906
  {
    FibAt70();
    FibStep(70, 190392490709135, 308061521170129);
    FibStep(71, 308061521170129, 498454011879264);
    FibStep(72, 498454011879264, 806515533049393);
    FibStep(73, 806515533049393, 1304969544928657);
    FibStep(74, 1304969544928657, 2111485077978050);
    FibStep(75, 2111485077978050, 3416454622906707);
    FibStep(76, 3416454622906707, 5527939700884757);
    FibStep(77, 5527939700884757, 8944394323791464);
    FibStep(78, 8944394323791464, 14472334024676221);
    FibStep(79, 14472334024676221, 23416728348467685);
  }

  lemma FibAt90()
    ensures Fib(90) == 2880067194370816120 && Fib(91) == 4660046610375530309
  {
    FibAt80();
    FibStep(80, 23416728348467685, 37889062373143906);
    FibStep(81, 37889062373143906, 61305790721611591);
    FibStep(82, 61305790721611591, 99194853094755497);
    FibStep(83, 99194853094755497, 160500643816367088);
    FibStep(84, 160500643816367088, 259695496911122585);
    FibStep(85, 259695496911122585, 420196140727489673);
    FibStep(86, 420196140727489673, 679891637638612258);
    FibStep(87, 679891637638612258, 1100087778366101931);
    FibStep(88, 1100087778366101931, 1779979416004714189);
    FibStep(89, 1779979416004714189, 2880067194370816120);
  }

  /** F(93) is the largest Fibonacci number a `u64` holds. */
  lemma FibU64Bound()
    ensures Fib(93) < U64_LIMIT <= Fib(94)
  {
    FibAt90();
    FibStep(90, 2880067194370816120, 4660046610375530309);
    FibStep(91, 4660046610375530309, 7540113804746346429);
    FibStep(92, 7540113804746346429, 12200160415121876738);
  }

  lemma FibFitsU64(k: nat)
    requires k <= 93
    ensures Fib(k) < U64_LIMIT
  {
    FibMonotone(k, 93);
    FibU64Bound();
  }

  /** `fibonacci`: `n` itself for `n <= 1`; otherwise a loop from 2 to `n`
      carries the last two numbers. From `n = 94` the `u64` sum overflows,
      so `n` is at most 93. */
  method Fibonacci(n: U64) returns (r: U64)
    requires n <= 93
    ensures r == Fib(n)
  {
    if n <= 1 {
      return n;
    }
    var a: U64 := 0;
    var b: U64 := 1;
    for k := 2 to n + 1
      invariant a == Fib(k - 2) && b == Fib(k - 1)
    {
      FibFitsU64(k);
      var temp: U64 := a + b;
      a := b;
      b := temp;
    }
    r := b;
  }
}
