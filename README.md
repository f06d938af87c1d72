# Learning-Rust, modelled in Dafny

This project models the parts of the Learning-Rust repository that compute
something, and proves what those programs promise.

The main piece is the **employee-directory command interpreter** in
`common-collections/practice/src/main.rs` (module `Directory`):
- `parse_command` turns a typed line into one of five commands.
- A `Company` maps each department to the list of its employees.
  `add_employee` keeps each list ascending and free of duplicates.
- `list_department` and `list_all` print the listings.
- The commented-out `Company` loop greets, runs one command per line and
  stops on `exit`.
- The simpler live `main` appends the second word of a four-word line to
  the list named by the fourth word.

Printed output is a returned sequence of lines. `println!("\n...")` is two
lines: an empty one, then the text. The `Company` loop is modelled twice:
- as a class method (`Company.Session`);
- as a function of the directory and the input lines (`Transcript`).

The two are proved equal. A worked example session is proved end to end
(`ExampleSession`).

The smaller programs each become one module:
- `Generics`: the maximum scans, `longest`, `first_word`, `mixup`,
  `cmp_display` and the default `summarize`.
- `Collections`: the `+= 50` loop, word counts, median and mode, and
  `get_median_mode`.
- `ControlFlow`: the loops of `control_flow` and the iterative `fibonacci`.
- `Structs`: rectangles and users.
- `Adder`: the library and its tests.
- `Enums`: coins and `plus_one`.
- `ErrorHandling`: `last_char_of_first_line`.

Shared modules model the parts of Rust's standard library that the programs
rely on:
- `Strings`: Unicode white space, `trim`, `split_whitespace`, `String`
  order and UTF-8 length.
- `Sorting`: `sort`/`sort_unstable` under a total order.
- `Ints`: the fixed-width integer ranges.
- `Options`: `Option`.

Integer widths follow the source. An operation that would overflow panics
in a debug build, so each such operation requires that it fits.

Three points of the directory code shape the model:
- **Matching is case-sensitive.** `parse_command` recognises only the
  spellings `to`/`TO`, `add`/`Add`, `list`/`List`, `all`, `exit` and
  `quit`. `To`, `ADD` and `Exit` are not recognised, although the help
  text itself advertises `Exit`.
- **End of input.** At end of input `read_line` leaves the line empty.
  Both loops then print their invalid-input reply forever: `Invalid input`
  in the live loop, `Invalid command!` and the help in the `Company` loop.
  The model's session ends when the given lines run out.
- **The file does not compile as written.** `add_employee` prints `name`
  after `push(name)` has moved it
  (common-collections/practice/src/main.rs:79-81). Rust borrow-checks
  every function, called or not, so the whole practice crate is rejected,
  the live `main` included. Every behaviour modelled for that file is
  therefore the one the code evidently intends: `add_employee` prints the
  name it added.

## Model

| member | source | states |
|---|---|---|
| Directory.ParseCommand | common-collections/practice/src/main.rs:125-150 | every command produced names single words and never lists a department called `all`; a line without words is `Invalid` |
| Directory.ParseWords | common-collections/practice/src/main.rs:130-149 | the match on the words always yields a well-formed command |
| Directory.ParseAdd | common-collections/practice/src/main.rs:131-138 | `add`/`Add` gives `Add(word 2, word 4)` exactly when there are four words and the third is `to` or `TO`, and `Invalid` otherwise |
| Directory.ParseListIgnoresTail | common-collections/practice/src/main.rs:139-146 | `list`/`List` with second word `all` gives `ListAll`, any other second word `ListDepartment` of it, and later words are ignored |
| Directory.ParseListAlone | common-collections/practice/src/main.rs:139-144 | `list`/`List` without a second word is `Invalid`, as words and as a typed line |
| Directory.ParseExitIgnoresTail | common-collections/practice/src/main.rs:147 | `exit` or `quit` gives `Exit` whatever follows |
| Directory.ParseUnknownVerb | common-collections/practice/src/main.rs:130-148 | any other first word (matching is case-sensitive) gives `Invalid` |
| Directory.ParseUnwords | common-collections/practice/src/main.rs:127 | a line of words joined by spaces is parsed as exactly those words |
| Directory.ParsePrefixedWords | common-collections/practice/src/main.rs:127 | the same for a line that starts with a given word |
| Directory.ParseAddLine | common-collections/practice/src/main.rs:131-134 | a typed four-word `add` line with `to`/`TO` third adds the second word to the fourth |
| Directory.ParseAddLineMalformed | common-collections/practice/src/main.rs:133-137 | every other typed `add` line (wrong word count, `To`) is `Invalid` |
| Directory.ParseListLine | common-collections/practice/src/main.rs:139-146 | a typed `list` line lists all for `all`, else the named department, ignoring further words |
| Directory.ParseExitLine | common-collections/practice/src/main.rs:147 | a typed `exit`/`quit` line is `Exit` whatever follows |
| Directory.ParseUnknownLine | common-collections/practice/src/main.rs:148 | a typed line with an unrecognised first word is `Invalid` |
| Directory.ParseUnparse | common-collections/practice/src/main.rs:125-150 | each well-formed command's canonical line parses back to that command (round trip) |
| Directory.ParseIgnoresTrim | common-collections/practice/src/main.rs:182 | trimming the line before parsing, as the loop does, never changes the command |
| Directory.HelpLines | common-collections/practice/src/main.rs:153-159 | a blank line, the heading "Available commands:", and four `- ` lines, one per command form |
| Directory.HelpAddForm | common-collections/practice/src/main.rs:155 | typed as shown, the help's `Add <name> to <department>` is the add command it describes |
| Directory.HelpListForms | common-collections/practice/src/main.rs:156-157 | typed as shown, `List <department>` lists that department and `List all` the company |
| Directory.HelpExitForm | common-collections/practice/src/main.rs:158 | the advertised `Exit` is `Invalid`, because the parser accepts only `exit` and `quit` |
| Directory.Bullets | common-collections/practice/src/main.rs:96-98 | one `- name` line per employee, in stored order |
| Directory.SectionsSnoc | common-collections/practice/src/main.rs:118-120 | listing one more department appends exactly its listing |
| Directory.Least | common-collections/practice/src/main.rs:115 | a non-empty set of names has a member at or below every member in `String` order |
| Directory.SortedNames | common-collections/practice/src/main.rs:114-115 | the department names, strictly ascending, each exactly once |
| Directory.CollectNames | common-collections/practice/src/main.rs:114 | collecting the keys gives every department exactly once (in unspecified order) |
| Directory.SortedCollectedNames | common-collections/practice/src/main.rs:114-115 | sorting the collected keys gives the ascending department names whatever the collection order |
| Directory.SortedInsertStaysStrict | common-collections/practice/src/main.rs:78-80 | pushing a new name and sorting keeps the list strictly ascending and holds the name once |
| Directory.AfterAddOrganised | common-collections/practice/src/main.rs:73-84 | `add_employee` keeps every list non-empty and strictly ascending (no duplicates), and the name ends up in its department exactly once |
| Directory.AddIdempotent | common-collections/practice/src/main.rs:78-84 | adding the same employee twice leaves the directory as one add does, and the second add reports "is already in" |
| Directory.Company.constructor | common-collections/practice/src/main.rs:61-65 | a new company has no departments and satisfies the invariant |
| Directory.Company.AddEmployee | common-collections/practice/src/main.rs:69-85 | a name already present changes nothing and is reported; otherwise the department is created if absent, its list becomes the sorted old list plus the name, and the other departments stay; the invariant is kept |
| Directory.Company.ListDepartment | common-collections/practice/src/main.rs:89-103 | a heading and the stored names in order, or "No employees found in d" when the department is absent or empty |
| Directory.Company.ListAll | common-collections/practice/src/main.rs:106-121 | "No employees in the company" for an empty company, otherwise the heading and every department once in ascending name order |
| Directory.Company.Execute | common-collections/practice/src/main.rs:182-200 | running a command prints its reply, changes the directory only for `Add`, and stops exactly on `Exit` |
| Directory.Company.Session | common-collections/practice/src/main.rs:162-201 | the loop prints the welcome, the help and then exactly the transcript of the input lines, and keeps the invariant |
| Directory.SessionStep | common-collections/practice/src/main.rs:169-200 | each line's reply is followed by the rest of the session from the new directory, and nothing follows `Exit` |
| Directory.TranscriptStep | common-collections/practice/src/main.rs:182-200 | typing a command's canonical line runs that command, then the session goes on unless it was `Exit` |
| Directory.AddToNewDepartment | common-collections/practice/src/main.rs:183-185 | adding to an absent department creates it holding just that employee and prints "Added" |
| Directory.AddAgain | common-collections/practice/src/main.rs:183-185 | adding an employee already present changes nothing and prints "is already in" |
| Directory.ListAllStep | common-collections/practice/src/main.rs:189-191 | `list all` prints the company listing and changes nothing |
| Directory.ExitStep | common-collections/practice/src/main.rs:192-195 | `exit` prints "Goodbye!" and no later line is read |
| Directory.ListAllThenExit | common-collections/practice/src/main.rs:189-195 | a listing line followed by `exit` prints the listing, then goodbye |
| Directory.ListAllLine | common-collections/practice/src/main.rs:139-142 | the typed line `list all` is the `ListAll` command |
| Directory.TwoDepartmentOrder | common-collections/practice/src/main.rs:115 | two department names are listed in ascending order |
| Directory.SectionsPair | common-collections/practice/src/main.rs:118-120 | two departments are listed one after the other |
| Directory.OnePersonListing | common-collections/practice/src/main.rs:93-98 | a one-employee department lists its heading and that name |
| Directory.TwoDepartmentListing | common-collections/practice/src/main.rs:106-121 | two one-person departments are listed under the heading in ascending name order |
| Directory.SessionFirstAdd | common-collections/practice/src/main.rs:183-185 | the first line of the example session adds x to a new department a |
| Directory.SessionSecondAdd | common-collections/practice/src/main.rs:183-185 | the second adds y to a new department b |
| Directory.SessionRepeatedAdd | common-collections/practice/src/main.rs:183-185 | repeating the first addition reports "is already in" and changes nothing |
| Directory.SessionListAndExit | common-collections/practice/src/main.rs:189-195 | `list all` then `exit` print both departments in order, then goodbye |
| Directory.ExampleSession | common-collections/practice/src/main.rs:161-202 | the session add x to a, add y to b, add x to a again, list all, exit prints two additions, one "already in", a before b each with its employee, and goodbye |
| Directory.LiveStep | common-collections/practice/src/main.rs:13-30 | the trimmed line `exit` stops; any other word count than four prints "Invalid input" and changes nothing; otherwise word 2 is appended to word 4's list, which is sorted again, keeping duplicates and never checking words 1 and 3; lists stay ascending |
| Generics.LargestI32 | generic-traits-lifetimes/src/main.rs:16-26 | on a non-empty slice, the position of an element at least every other, and the first such (strictly greater than all before it) |
| Generics.LargestChar | generic-traits-lifetimes/src/main.rs:28-38 | the same for `char` under code-point order |
| Generics.FirstMaximumUnique | generic-traits-lifetimes/src/main.rs:19-22 | those properties pin down a single position |
| Generics.LargestI32Example | generic-traits-lifetimes/src/main.rs:128-129 | the list in `main` gives 100 |
| Generics.Longest | generic-traits-lifetimes/src/main.rs:377-383 | one of the two arguments, at least as long in UTF-8 bytes as both, and `y` on a tie |
| Generics.LongestCountsBytes | generic-traits-lifetimes/src/main.rs:378 | length is in bytes: "éé" (2 chars) beats "abc" (3 chars) |
| Generics.LongestWithAnAnnouncement | generic-traits-lifetimes/src/main.rs:478-492 | prints one announcement line and returns what `longest` returns |
| Generics.BeforeFirstSpace | generic-traits-lifetimes/src/main.rs:420-430 | a prefix of `s` without spaces, followed by a space unless it is all of `s` |
| Generics.FirstWord | generic-traits-lifetimes/src/main.rs:420-430 | the byte scan returns the text before the first space, or all of `s` |
| Generics.BeforeFirstSpaceAt | generic-traits-lifetimes/src/main.rs:423-427 | the cut is at the first space (or the end) |
| Generics.FirstWordOfSentence | generic-traits-lifetimes/src/main.rs:420-430 | a space-free word followed by a space is its own first word |
| Generics.Point3.Mixup | generic-traits-lifetimes/src/main.rs:73-78 | the `x` of this point with the `y` of the other |
| Generics.MixupLaws | generic-traits-lifetimes/src/main.rs:73-78 | mixing a point with itself gives it back; a chain of mixups keeps the first `x` and the last `y` |
| Generics.NewPair | generic-traits-lifetimes/src/main.rs:307-311 | the pair holds the given `x` and `y` |
| Generics.CmpDisplay | generic-traits-lifetimes/src/main.rs:313-321 | names `x` when `x >= y`, `y` otherwise |
| Generics.CmpDisplayAnnouncesMaximum | generic-traits-lifetimes/src/main.rs:315-319 | on integers the member announced is the maximum |
| Generics.SummarizeAuthor | generic-traits-lifetimes/src/main.rs:226-230 | a tweet's author is `@` followed by its user name |
| Generics.TweetSummary | generic-traits-lifetimes/src/main.rs:182-188 | the default `summarize` of a tweet is "(Read more from @user...)" |
| Generics.TweetSummaryNamesUser | generic-traits-lifetimes/src/main.rs:226-230 | two tweets have the same summary exactly when they have the same user |
| Collections.AddFifty | common-collections/src/main.rs:66-69 | every element grows by 50 in place, with length and order kept |
| Collections.AddFiftyExample | common-collections/src/main.rs:66-69 | `[100, 32, 57]` becomes `[150, 82, 107]` |
| Collections.CountsAreMultiplicities | common-collections/src/main.rs:327-335 | the count map has exactly the elements as keys, each mapped to its number of occurrences |
| Collections.CountsSnoc | common-collections/src/main.rs:333 | one more element adds one to its count, inserting 0 first when absent |
| Collections.CountsExample | common-collections/src/main.rs:332 | `[1, 2, 2, 3]` gives `{1: 1, 2: 2, 3: 1}` |
| Collections.WordCountsExample | common-collections/src/main.rs:265-275 | the words of "hello world wonderful world" count hello 1, world 2, wonderful 1 |
| Collections.WordCount | common-collections/src/main.rs:265-275 | each distinct word of the text maps to its number of occurrences, and nothing else is a key |
| Collections.MaxCountExists | common-collections/src/main.rs:337-344 | a non-empty count map has a key of greatest count |
| Collections.MainMedianMode | common-collections/src/main.rs:286-305 | the median is the element at `len / 2`; the mode occurs in the list and no value occurs more often |
| Collections.Median | common-collections/src/main.rs:311-318 | the mean of the two middle elements, which for odd length are one and the same element |
| Collections.MedianSplitsInHalves | common-collections/src/main.rs:311-318 | on an ascending list the median is at or above the lower half and at or below the upper half |
| Collections.MedianWithinI32 | common-collections/src/main.rs:314-318 | the median of `i32` values lies within the `i32` range |
| Collections.MainMedianIsMedian | common-collections/src/main.rs:286-288 | on an ascending list of odd length, such as the one `main` builds, the element at `len / 2` is the median of the sorted list |
| Collections.MainMedianNeedsSortedInput | common-collections/src/main.rs:286-288 | on the unsorted `[3, 1, 2]` the element at `len / 2` is not the median, so `main` relies on its list being sorted |
| Collections.SortI32OfAscending | common-collections/src/main.rs:310 | sorting an ascending list leaves it unchanged |
| Collections.SortI32SameMultiset | common-collections/src/main.rs:310 | the sorted list depends only on the input's elements with their multiplicities, not on their order |
| Collections.MedianAsWritten | common-collections/src/main.rs:314-318 | the median step as written: the exact median, or a panic exactly when the `i32` sum of the middle pair overflows |
| Collections.MedianAsWrittenOverflows | common-collections/src/main.rs:315 | `[i32::MAX, i32::MAX]` panics although its median is `i32::MAX` |
| Collections.I32LeTotalOrder | common-collections/src/main.rs:310 | `i32` order is total, so sorting is well defined |
| Collections.SortI32 | common-collections/src/main.rs:310 | `sort_unstable` gives an ascending permutation of the input |
| Collections.GetMedianMode | common-collections/src/main.rs:308-347 | on non-empty input, the exact median of the sorted numbers and a mode that occurs in the input with greatest count |
| ControlFlow.Decimal | common-prg-concepts/src/main.rs:124 | the displayed number is decimal digits without a leading zero |
| ControlFlow.DecimalInjective | common-prg-concepts/src/main.rs:124 | different numbers display differently |
| ControlFlow.LoopWithValue | common-prg-concepts/src/main.rs:108-116 | the loop stops with `counter` 10 and yields 20 |
| ControlFlow.LabelledLoops | common-prg-concepts/src/main.rs:122-141 | the labelled break leaves both loops in the round where `count` is 2, so the final count is 2, with the lines printed on the way |
| ControlFlow.LabelledLoopsLines | common-prg-concepts/src/main.rs:122-141 | those lines spelled out |
| ControlFlow.CountdownLinesExtend | common-prg-concepts/src/main.rs:145-148 | counting one step further down adds one line |
| ControlFlow.WhileCountdown | common-prg-concepts/src/main.rs:143-150 | three iterations end with `number` 0, printing 3, 2, 1 and then LIFTOFF |
| ControlFlow.ForCountdown | common-prg-concepts/src/main.rs:153-156 | the reversed range prints what the `while` countdown prints |
| ControlFlow.CountdownLinesSpelledOut | common-prg-concepts/src/main.rs:143-156 | both countdowns print `number = 3`, `2`, `1` |
| ControlFlow.ValueLines | common-prg-concepts/src/main.rs:161-164 | one line per element, in order |
| ControlFlow.WalkArray | common-prg-concepts/src/main.rs:158-164 | the index walk prints every element once, in order |
| ControlFlow.FibMonotone | common-prg-concepts/src/main.rs:190-204 | Fibonacci numbers never decrease |
| ControlFlow.FibStep | common-prg-concepts/src/main.rs:199-201 | the next number is the sum of the last two |
| ControlFlow.FibU64Bound | common-prg-concepts/src/main.rs:199 | F(93) fits in `u64` and F(94) does not |
| ControlFlow.FibFitsU64 | common-prg-concepts/src/main.rs:199 | every sum the loop forms for `n <= 93` fits in `u64` |
| ControlFlow.Fibonacci | common-prg-concepts/src/main.rs:190-204 | returns F(n): `n` for `n <= 1`, else the loop carrying the last two numbers |
| Structs.Rectangle.Area | structs/src/main.rs:11-13 | `width * height`, zero exactly when a side is zero, under the no-overflow precondition |
| Structs.Rectangle.CanHold | structs/src/main.rs:15-17 | strictly wider and strictly taller, so a holding rectangle has no zero side |
| Structs.Rectangle.Square | structs/src/main.rs:19-24 | width and height are both `size`, and the area fits exactly when `size * size` does |
| Structs.Area1 | structs/src/main.rs:125-127 | the free function computes what the `area` method does |
| Structs.CanHoldLargerArea | structs/src/main.rs:11-17 | a rectangle that can hold another has strictly larger area |
| Structs.CanHoldStrictOrder | structs/src/main.rs:15-17 | `can_hold` is irreflexive, asymmetric and transitive |
| Structs.SquareLaws | structs/src/main.rs:11-24 | a square's area is `size * size`, and a square holds another exactly when its side is larger |
| Structs.BuildUser | structs/src/main.rs:60-67 | an active user with one sign-in and the given e-mail and user name |
| Structs.BuildUserInjective | structs/src/main.rs:60-67 | different arguments give different users |
| Adder.InternalAdder | tests-in-rust-adder/src/lib.rs:5-7 | the sum of the two arguments |
| Adder.Add | tests-in-rust-adder/src/lib.rs:1-3 | what `internal_adder` returns, from which either argument is recovered |
| Adder.AddTwoAndTwo | tests-in-rust-adder/src/lib.rs:34-56 | `add(2, 2)` and `internal_adder(2, 2)` are 4 |
| Adder.Greeting | tests-in-rust-adder/src/lib.rs:9-11 | "Hello! " followed by the name |
| Adder.GreetingContainsName | tests-in-rust-adder/src/lib.rs:91-96 | every greeting contains the name, at its end |
| Adder.GreetingInjective | tests-in-rust-adder/src/lib.rs:9-11 | different names give different greetings |
| Adder.PrintsAndReturns10 | tests-in-rust-adder/src/lib.rs:13-16 | returns 10 whatever it is given |
| Adder.PrintsAndReturns10Tests | tests-in-rust-adder/src/lib.rs:107-118 | `prints_and_returns_10(4)` is 10, and `prints_and_returns_10(8)` is not 5, so the ignored test would fail |
| Adder.Rectangle.CanHold | tests-in-rust-adder/src/lib.rs:24-28 | strictly wider and strictly taller, so a holding rectangle has no zero side |
| Adder.CanHoldTests | tests-in-rust-adder/src/lib.rs:58-89 | 8x7 holds 5x1, and 5x1 does not hold 8x7 |
| Adder.CanHoldAsymmetric | tests-in-rust-adder/src/lib.rs:24-28 | no rectangle holds itself, and two never hold each other |
| Enums.ValueInCents | enums-and-pattern-matching/src/main.rs:78-97 | a penny is worth 1, a nickel 5, a dime 10, and the value is 25 exactly for a quarter of any state |
| Enums.CentsAnnouncement | enums-and-pattern-matching/src/main.rs:80-94 | the line each arm prints: "Lucky Penny!", "Five Cents!", "Ten Cents!", or a quarter's "State Quarter from" its state |
| Enums.AnnouncementIdentifiesCoin | enums-and-pattern-matching/src/main.rs:80-94 | two coins print the same line exactly when they are the same coin, a quarter's state included |
| Enums.ValueIdentifiesKind | enums-and-pattern-matching/src/main.rs:78-97 | two coins are worth the same exactly when they are the same coin or both quarters |
| Enums.AlaskaQuarter | enums-and-pattern-matching/src/main.rs:92-99 | an Alaska quarter is worth 25 and announces its state |
| Enums.PlusOne | enums-and-pattern-matching/src/main.rs:102-107 | `None` stays `None`; `Some(i)` becomes `Some(i + 1)` |
| Enums.PlusOneExamples | enums-and-pattern-matching/src/main.rs:109-112 | `plus_one(Some(5))` is `Some(6)`, and `plus_one(None)` is `None` |
| Enums.PlusOneInjective | enums-and-pattern-matching/src/main.rs:102-107 | `plus_one` never maps two inputs to one output |
| ErrorHandling.NewlineIndex | error-handling/src/main.rs:107 | the position of the first `'\n'`, or the length when there is none |
| ErrorHandling.FirstLine | error-handling/src/main.rs:107 | `lines().next()` is absent exactly for empty text; otherwise it is a newline-free prefix (which prefix: the two lemmas below) |
| ErrorHandling.FirstLineBeforeNewline | error-handling/src/main.rs:107 | with a newline, the first line is the text before the first `'\n'`, less one `'\r'` directly before it |
| ErrorHandling.FirstLineNoNewline | error-handling/src/main.rs:107 | non-empty text without a newline is its own first line, a trailing `'\r'` kept |
| ErrorHandling.LastCharOfFirstLine | error-handling/src/main.rs:106-108 | the result is never `'\n'`, occurs in the text, and is absent for empty text (which character: the two lemmas below) |
| ErrorHandling.LastCharBeforeNewline | error-handling/src/main.rs:106-108 | with a newline, the answer is the last character before the first `'\n'`, or before the `"\r\n"` that ends the first line, and absent when that line is empty |
| ErrorHandling.LastCharNoNewline | error-handling/src/main.rs:106-108 | without a newline, the answer is the text's last character, absent for empty text |
| ErrorHandling.NoLastCharExactly | error-handling/src/main.rs:107 | absent exactly for empty text or text starting with `"\n"` or `"\r\n"` |
| ErrorHandling.IgnoresLaterLines | error-handling/src/main.rs:107 | text after the first newline never changes the result |
| ErrorHandling.FirstNewlineAt | error-handling/src/main.rs:107 | a `'\n'` with none before it is the first one |
| ErrorHandling.LineEndingExamples | error-handling/src/main.rs:107 | one `'\r'` before the newline is dropped; a lone trailing `'\r'` is kept |
| Strings.TrimStart | common-collections/practice/src/main.rs:13 | drops exactly the leading white space |
| Strings.TrimEnd | common-collections/practice/src/main.rs:13 | drops exactly the trailing white space |
| Strings.Trim | common-collections/practice/src/main.rs:13 | the result neither starts nor ends with white space |
| Strings.TokenLength | common-collections/practice/src/main.rs:19 | the length of the longest white-space-free prefix |
| Strings.SplitWhitespace | common-collections/practice/src/main.rs:19 | every piece is a non-empty word without white space |
| Strings.SplitUnwords | common-collections/practice/src/main.rs:127 | splitting words joined by spaces gives the words back |
| Strings.SplitSkipsLeadingWhitespace | common-collections/practice/src/main.rs:13-19 | leading white space never changes the words |
| Strings.SplitIgnoresTrailingWhitespace | common-collections/practice/src/main.rs:13-19 | trailing white space never changes the words |
| Strings.SplitTrim | common-collections/practice/src/main.rs:13-19 | trimming before splitting never changes the words |
| Strings.StrLeTotalOrder | common-collections/practice/src/main.rs:115 | `String` order is a total order |
| Strings.SortStrings | common-collections/practice/src/main.rs:30 | `sort` gives an ascending permutation |
| Strings.StrictlyAscendingCountsOne | common-collections/practice/src/main.rs:78-80 | a strictly ascending list holds each name at most once |
| Strings.SortedWithoutRepeatsIsStrict | common-collections/practice/src/main.rs:80 | an ascending list without repeats is strictly ascending |
| Strings.StrictlyAscendingUnique | common-collections/practice/src/main.rs:114-115 | two strictly ascending lists with the same members are equal |
| Strings.Utf8Len | generic-traits-lifetimes/src/main.rs:378 | the byte length lies between the character count and four times that |
| Strings.Utf8LenConcat | generic-traits-lifetimes/src/main.rs:378 | byte lengths add up under concatenation |
| Sorting.Insert | common-collections/src/main.rs:310 | inserting adds the element to the multiset and keeps an ascending list ascending |
| Sorting.SortBy | common-collections/src/main.rs:310 | an ascending permutation of the input |
| Sorting.SortedUnique | common-collections/src/main.rs:310 | under a total order there is only one ascending permutation, so stable and unstable sorts agree |

## Left out

- Standard input and output are not modelled: `read_line` and its `expect`, the prompt `print!` with its `flush`, and `println!` itself. Printed text is a returned list of lines.
- Directory.LiveStep: returns no lines after an addition. The `{:?}` dump of the whole map (common-collections/practice/src/main.rs:32) prints in hash order, which is unspecified.
- Directory.Company.Session: stops when the given lines run out. The source would keep reading an empty line forever.
- Directory.CollectNames: the order in which a `HashMap` yields its keys is not modelled. It picks keys in an arbitrary order, which `list_all` then sorts away.
- Collections.MainMedianMode: among several values of greatest count, which one the map iteration keeps depends on hash order. The model states only that the count is greatest.
- Collections.GetMedianMode: which of several greatest-count values `max_by_key` returns is not stated.
- Collections.GetMedianMode: the median is an exact real, not an `f64`. The sum of two `i32` values and its half are exact in `f64` anyway.
- Collections.GetMedianMode: the model uses the exact median, not the overflowing sum (see Findings).
- Collections.Counts: counts are unbounded naturals. The source's `i32` counters would overflow only past 2^31 - 1 occurrences.
- ControlFlow.WalkArray: walks any array to its length. The source walks its fixed five-element array with `index < 5`.
- The `for element in a` loop is not modelled separately: it prints the same lines as WalkArray.
- The `loop` that prints `again!` once and breaks is not modelled.
- ControlFlow.Fibonacci: the line it prints before returning is not modelled.
- Adder.PrintsAndReturns10: the line it prints is not modelled.
- Floating point is not modelled: the Fahrenheit/Celsius loop and `Point<f32>::distance_from_origin`.
- Not modelled because they demonstrate language mechanics rather than computation:
  - the guessing game (random secret, interactive input);
  - ownership, moves and borrows;
  - module paths and visibility;
  - the file-reading functions of the error-handling program;
  - the trait-bound and lifetime demonstrations (`notify`, `returns_summarizable`, the `Summary` impl for `NewsArticle`).
- Enums.UsState: only the two states the source lists are modelled.

## Findings

| source | as written | input that shows it | evidently intended | confidence | as-written member | corrected member |
|---|---|---|---|---|---|---|
| common-collections/src/main.rs:314-315 | the even-length median adds the two middle `i32` values before converting to `f64`, so the sum can overflow (a panic in a debug build) | `get_median_mode(vec![2147483647, 2147483647])` | the mean of the two middle values, which always lies in the `i32` range | not executed | Collections.MedianAsWritten, Collections.MedianAsWrittenOverflows | Collections.Median, Collections.MedianSplitsInHalves, Collections.MedianWithinI32 |
