/** The employee-directory command interpreter of
    common-collections/practice/src/main.rs: a parser from a typed line to a
    closed set of commands, a `Company` that maps each department to the
    ascending, duplicate-free list of its employees, the listings it prints,
    and the simpler per-line update the live `main` performs.
    Printed output is a returned sequence of lines; `println!("\n...")`
    prints two lines, an empty one and the text. */
module Directory {

  import opened Sorting
  import opened Strings

  // ------------------------------------------------------------ commands

  datatype Command =
    | Add(name: string, department: string)
    | ListDepartment(department: string)
    | ListAll
    | Exit
    | Invalid

  /** The commands the parser can produce: every name is a single word,
      and a listed department is never the keyword `all`. */
  predicate WellFormed(cmd: Command) {
    match cmd
    case Add(name, department) => IsWord(name) && IsWord(department)
    case ListDepartment(department) => IsWord(department) && department != "all"
    case _ => true
  }

  /** `parse_command`. Only the spellings `add`/`Add`, `to`/`TO`,
      `list`/`List`, `all`, `exit` and `quit` are recognised. */
  function ParseCommand(input: string): (cmd: Command)
    ensures WellFormed(cmd)
    ensures SplitWhitespace(input) == [] ==> cmd == Invalid
  {
    ParseWords(SplitWhitespace(input))
  }

  /** The match of `parse_command` on the collected words. */
  function ParseWords(parts: seq<string>): (cmd: Command)
    requires forall i :: 0 <= i < |parts| ==> IsWord(parts[i])
    ensures WellFormed(cmd)
  {
    if parts == [] then Invalid
    else if parts[0] == "add" || parts[0] == "Add" then
      if |parts| == 4 && (parts[2] == "to" || parts[2] == "TO") then Add(parts[1], parts[3]) else Invalid
    else if parts[0] == "list" || parts[0] == "List" then
      if |parts| < 2 then Invalid
      else if parts[1] == "all" then ListAll
      else ListDepartment(parts[1])
    else if parts[0] == "exit" || parts[0] == "quit" then Exit
    else Invalid
  }

  /** A canonical line for each command, in the lower-case spelling. */
  function Unparse(cmd: Command): string {
    match cmd
    case Add(name, department) => Unwords(["add", name, "to", department])
    case ListDepartment(department) => Unwords(["list", department])
    case ListAll => Unwords(["list", "all"])
    case Exit => "exit"
    case Invalid => ""
  }

  /** Parsing the canonical line of a command gives the command back. */
  lemma ParseUnparse(cmd: Command)
    requires WellFormed(cmd)
    ensures ParseCommand(Unparse(cmd)) == cmd
  {
    match cmd
    case Add(name, department) =>
      ParseAddLine("add", name, "to", department);
    case ListDepartment(department) =>
      assert ["list", department] + [] == ["list", department];
      ParseListLine("list", department, []);
    case ListAll =>
      assert ["list", "all"] + [] == ["list", "all"];
      ParseListLine("list", "all", []);
    case Exit =>
      assert ["exit"] + [] == ["exit"];
      ParseExitLine("exit", []);
    case Invalid =>
  }

  predicate AllWords(parts: seq<string>) {
    forall i :: 0 <= i < |parts| ==> IsWord(parts[i])
  }

  /** A word in front of a list of words gives a list of words. */
  lemma AllWordsPrepend(first: string, rest: seq<string>)
    requires IsWord(first) && AllWords(rest)
    ensures AllWords([first] + rest)
  {
    forall i | 0 <= i < |[first] + rest|
      ensures IsWord(([first] + rest)[i])
    {
      if i > 0 {
        assert ([first] + rest)[i] == rest[i - 1];
      }
    }
  }

  /** A line of words joined by spaces is parsed as those words. */
  lemma ParseUnwords(parts: seq<string>)
    requires AllWords(parts)
    ensures ParseCommand(Unwords(parts)) == ParseWords(parts)
  {
    SplitUnwords(parts);
  }

  /** A word of visible ASCII characters has no white space in it. */
  lemma VisibleAsciiIsWord(w: string)
    requires w != []
    requires forall i :: 0 <= i < |w| ==> '!' <= w[i] <= '~'
    ensures IsWord(w)
  {
  }

  /** The spellings of the verbs are single words. */
  lemma VerbsAreWords(verb: string)
    requires verb in {"add", "Add", "list", "List", "exit", "quit"}
    ensures IsWord(verb)
  {
    VisibleAsciiIsWord(verb);
  }

  /** A line of a first word followed by more words is parsed as those words. */
  lemma ParsePrefixedWords(first: string, rest: seq<string>)
    requires IsWord(first) && AllWords(rest)
    ensures ParseCommand(Unwords([first] + rest)) == ParseWords([first] + rest)
  {
    AllWordsPrepend(first, rest);
    ParseUnwords([first] + rest);
  }

  /** An `add` line is a command only with exactly four words and `to`/`TO` third. */
  lemma ParseAdd(verb: string, rest: seq<string>)
    requires verb == "add" || verb == "Add"
    requires AllWords(rest)
    ensures var cmd := ParseWords([verb] + rest);
      if |rest| == 3 && (rest[1] == "to" || rest[1] == "TO") then cmd == Add(rest[0], rest[2])
      else cmd == Invalid
  {
    var parts := [verb] + rest;
    assert parts[0] == verb;
    assert |rest| == 3 ==> parts[1] == rest[0] && parts[2] == rest[1] && parts[3] == rest[2];
  }

  /** `list` takes its second word only; whatever follows is ignored. */
  lemma ParseListIgnoresTail(verb: string, department: string, rest: seq<string>)
    requires verb == "list" || verb == "List"
    requires IsWord(department) && AllWords(rest)
    ensures ParseWords([verb, department] + rest)
         == if department == "all" then ListAll else ListDepartment(department)
  {
    var parts := [verb, department] + rest;
    assert parts[0] == verb && parts[1] == department;
  }

  /** `list` on its own names no department and is invalid, as a list of
      words and as a typed line. */
  lemma ParseListAlone(verb: string)
    requires verb == "list" || verb == "List"
    ensures ParseWords([verb]) == Invalid
    ensures ParseCommand(verb) == Invalid
  {
    VerbsAreWords(verb);
    assert [verb] + [] == [verb];
    ParsePrefixedWords(verb, []);
  }

  /** `exit` or `quit` ends the session whatever follows it. */
  lemma ParseExitIgnoresTail(verb: string, rest: seq<string>)
    requires verb == "exit" || verb == "quit"
    requires AllWords(rest)
    ensures ParseWords([verb] + rest) == Exit
  {
    assert ([verb] + rest)[0] == verb;
  }

  /** A first word outside the recognised spellings makes the line invalid;
      matching is case-sensitive, so `ADD` and `Exit` are not commands. */
  lemma ParseUnknownVerb(parts: seq<string>)
    requires AllWords(parts) && parts != []
    requires parts[0] !in {"add", "Add", "list", "List", "exit", "quit"}
    ensures ParseWords(parts) == Invalid
  {
  }

  /** A typed `add` line of four words with `to` or `TO` third adds the
      second word to the fourth. */
  lemma ParseAddLine(verb: string, name: string, to: string, department: string)
    requires verb == "add" || verb == "Add"
    requires to == "to" || to == "TO"
    requires IsWord(name) && IsWord(department)
    ensures ParseCommand(Unwords([verb, name, to, department])) == Add(name, department)
  {
    VerbsAreWords(verb);
    VisibleAsciiIsWord(to);
    var parts := [verb, name, to, department];
    assert AllWords(parts);
    ParseUnwords(parts);
  }

  /** Any other typed `add` line (a misspelt `To`, a missing or an extra
      word) is invalid. */
  lemma ParseAddLineMalformed(verb: string, rest: seq<string>)
    requires verb == "add" || verb == "Add"
    requires AllWords(rest)
    requires !(|rest| == 3 && (rest[1] == "to" || rest[1] == "TO"))
    ensures ParseCommand(Unwords([verb] + rest)) == Invalid
  {
    VerbsAreWords(verb);
    ParsePrefixedWords(verb, rest);
    ParseAdd(verb, rest);
  }

  /** A typed `list` line lists the company for `all` and otherwise the
      department named by its second word; later words are ignored. */
  lemma ParseListLine(verb: string, department: string, rest: seq<string>)
    requires verb == "list" || verb == "List"
    requires IsWord(department) && AllWords(rest)
    ensures ParseCommand(Unwords([verb, department] + rest))
         == if department == "all" then ListAll else ListDepartment(department)
  {
    AllWordsPrepend(department, rest);
    AllWordsPrepend(verb, [department] + rest);
    assert [verb] + ([department] + rest) == [verb, department] + rest;
    ParseUnwords([verb, department] + rest);
    ParseListIgnoresTail(verb, department, rest);
  }

  /** A typed `exit` or `quit` line ends the session whatever follows. */
  lemma ParseExitLine(verb: string, rest: seq<string>)
    requires verb == "exit" || verb == "quit"
    requires AllWords(rest)
    ensures ParseCommand(Unwords([verb] + rest)) == Exit
  {
    VerbsAreWords(verb);
    ParsePrefixedWords(verb, rest);
    ParseExitIgnoresTail(verb, rest);
  }

  /** A typed line whose first word is not a recognised spelling (`ADD`,
      `Exit`, `banana`) is invalid. */
  lemma ParseUnknownLine(parts: seq<string>)
    requires AllWords(parts) && parts != []
    requires parts[0] !in {"add", "Add", "list", "List", "exit", "quit"}
    ensures ParseCommand(Unwords(parts)) == Invalid
  {
    ParseUnwords(parts);
    ParseUnknownVerb(parts);
  }

  // ------------------------------------------------------------ listings

  /** The employees stored for `department`, none when it is absent. */
  function Staff(departments: map<string, seq<string>>, department: string): seq<string> {
    if department in departments then departments[department] else []
  }

  /** One `- name` line per employee, in stored order. */
  function Bullets(names: seq<string>): (lines: seq<string>)
    ensures |lines| == |names|
    ensures forall i :: 0 <= i < |names| ==> lines[i] == "- " + names[i]
  {
    if names == [] then [] else Bullets(names[..|names| - 1]) + ["- " + names[|names| - 1]]
  }

  /** What `list_department` prints. */
  function DepartmentListing(departments: map<string, seq<string>>, department: string): seq<string> {
    if Staff(departments, department) != [] then
      ["", department + " department:"] + Bullets(departments[department])
    else
      ["No employees found in " + department]
  }

  /** The listings of the departments `names`, one after the other. */
  function Sections(departments: map<string, seq<string>>, names: seq<string>): seq<string> {
    if names == [] then []
    else Sections(departments, names[..|names| - 1]) + DepartmentListing(departments, names[|names| - 1])
  }

  /** Listing one more department appends its listing. */
  lemma SectionsSnoc(departments: map<string, seq<string>>, names: seq<string>, i: nat)
    requires i < |names|
    ensures Sections(departments, names[..i + 1])
         == Sections(departments, names[..i]) + DepartmentListing(departments, names[i])
  {
    assert names[..i + 1][..i] == names[..i];
  }

  /** The least of `s` without `y`, compared with `y`, gives the least of `s`. */
  lemma LeastWithOneMore(s: set<string>, y: string, m: string)
    requires y in s && m in s
    requires forall x :: x in s && x != y ==> StrLe(m, x)
    ensures var least := if StrLe(m, y) then m else y;
      forall x :: x in s ==> StrLe(least, x)
  {
    StrLeTotal(m, y);
    StrLeTotal(y, y);
    if !StrLe(m, y) {
      forall x | x in s && x != y ensures StrLe(y, x) {
        StrLeTransitive(y, m, x);
      }
    }
  }

  /** The least name of a non-empty set. */
  ghost function Least(s: set<string>): (m: string)
    requires s != {}
    ensures m in s && forall x :: x in s ==> StrLe(m, x)
    decreases |s|
  {
    var y :| y in s;
    if s == {y} then
      StrLeTotal(y, y);
      y
    else
      var m := Least(s - {y});
      LeastWithOneMore(s, y, m);
      if StrLe(m, y) then m else y
  }

  /** The department names in ascending order, each once. */
  ghost function SortedNames(s: set<string>): (r: seq<string>)
    ensures StrictlyAscending(r)
    ensures forall x :: x in r <==> x in s
    decreases |s|
  {
    if s == {} then []
    else
      var m := Least(s);
      var rest := SortedNames(s - {m});
      assert forall k :: 0 <= k < |rest| ==> StrLt(m, rest[k]) by {
        forall k | 0 <= k < |rest| ensures StrLt(m, rest[k]) {
          assert rest[k] in s - {m};
        }
      }
      [m] + rest
  }

  /** Sorting the names collected from a set, each once, gives `SortedNames` of the set. */
  lemma SortedCollectedNames(names: seq<string>, s: set<string>)
    requires forall x :: x in names <==> x in s
    requires forall x :: multiset(names)[x] <= 1
    ensures SortStrings(names) == SortedNames(s)
  {
    var sorted := SortStrings(names);
    assert forall x :: multiset(sorted)[x] <= 1;
    SortedWithoutRepeatsIsStrict(sorted);
    forall x ensures x in sorted <==> x in s {
      assert x in sorted <==> x in multiset(sorted);
      assert x in names <==> x in multiset(names);
    }
    StrictlyAscendingUnique(sorted, SortedNames(s));
  }

  /** The names of a set, each once, in the order the iteration visits
      them; the order of a `HashMap`'s keys is not modelled. */
  method CollectNames(s: set<string>) returns (names: seq<string>)
    ensures forall x :: x in names <==> x in s
    ensures forall x :: multiset(names)[x] <= 1
  {
    names := [];
    var rest := s;
    while rest != {}
      invariant rest <= s
      invariant forall x :: x in names <==> x in s && x !in rest
      invariant forall x :: multiset(names)[x] <= 1
      decreases |rest|
    {
      var name :| name in rest;
      names := names + [name];
      rest := rest - {name};
    }
  }

  /** What `list_all` prints: every department once, in ascending name order. */
  ghost function CompanyListing(departments: map<string, seq<string>>): seq<string> {
    if departments == map[] then ["No employees in the company"]
    else ["", "All departments:"] + Sections(departments, SortedNames(departments.Keys))
  }

  /** The fixed help text of `print_help`: a blank line, a heading, and one
      `- ` line per command form, each form written as its words joined by
      single spaces. */
  function HelpLines(): (lines: seq<string>)
    ensures |lines| == 6 && lines[0] == "" && lines[1] == "Available commands:"
    ensures forall i :: 2 <= i < |lines| ==> |lines[i]| > 2 && lines[i][..2] == "- "
  {
    ["", "Available commands:",
     "- " + Unwords(["Add", "<name>", "to", "<department>"]),
     "- " + Unwords(["List", "<department>"]),
     "- " + Unwords(["List", "all"]),
     "- " + Unwords(["Exit"])]
  }

  /** Typed as shown, the help's `add` form is the command it describes. */
  lemma HelpAddForm()
    ensures ParseCommand(HelpLines()[2][2..]) == Add("<name>", "<department>")
  {
    VisibleAsciiIsWord("<name>");
    VisibleAsciiIsWord("<department>");
    var form := Unwords(["Add", "<name>", "to", "<department>"]);
    assert HelpLines()[2][2..] == form;
    ParseAddLine("Add", "<name>", "to", "<department>");
  }

  /** So are its two `list` forms. */
  lemma HelpListForms()
    ensures ParseCommand(HelpLines()[3][2..]) == ListDepartment("<department>")
    ensures ParseCommand(HelpLines()[4][2..]) == ListAll
  {
    VisibleAsciiIsWord("<department>");
    VisibleAsciiIsWord("all");
    assert ["List", "<department>"] + [] == ["List", "<department>"];
    assert HelpLines()[3][2..] == Unwords(["List", "<department>"]);
    ParseListLine("List", "<department>", []);
    assert ["List", "all"] + [] == ["List", "all"];
    assert HelpLines()[4][2..] == Unwords(["List", "all"]);
    ParseListLine("List", "all", []);
  }

  /** The advertised `Exit` is not a command: the parser accepts only
      `exit` and `quit`. */
  lemma HelpExitForm()
    ensures ParseCommand(HelpLines()[5][2..]) == Invalid
  {
    VisibleAsciiIsWord("Exit");
    assert HelpLines()[5][2..] == Unwords(["Exit"]);
    ParseUnknownLine(["Exit"]);
  }

  // ------------------------------------------------------------- company

  /** Every stored list is non-empty and strictly ascending. */
  ghost predicate Organised(departments: map<string, seq<string>>) {
    forall d :: d in departments ==> departments[d] != [] && StrictlyAscending(departments[d])
  }

  /** The directory after `add_employee(name, department)`. */
  function AfterAdd(departments: map<string, seq<string>>, name: string, department: string): map<string, seq<string>> {
    if name in Staff(departments, department) then departments
    else departments[department := SortStrings(Staff(departments, department) + [name])]
  }

  /** The line `add_employee` prints. */
  function AddMessage(departments: map<string, seq<string>>, name: string, department: string): string {
    if name in Staff(departments, department) then name + " is already in " + department
    else "Added " + name + " to " + department
  }

  /** Adding a new name to a strictly ascending list keeps it strictly ascending. */
  lemma SortedInsertStaysStrict(staff: seq<string>, name: string)
    requires StrictlyAscending(staff) && name !in staff
    ensures var r := SortStrings(staff + [name]);
      r != [] && StrictlyAscending(r) && multiset(r)[name] == 1
  {
    var r := SortStrings(staff + [name]);
    StrictlyAscendingCountsOne(staff);
    assert multiset(r) == multiset(staff) + multiset{name};
    assert name in multiset(r);
    assert multiset(staff)[name] == 0;
    SortedWithoutRepeatsIsStrict(r);
  }

  /** `add_employee` keeps every list non-empty and strictly ascending,
      and afterwards the name is in its department exactly once. */
  lemma AfterAddOrganised(departments: map<string, seq<string>>, name: string, department: string)
    requires Organised(departments)
    ensures Organised(AfterAdd(departments, name, department))
    ensures var staff := Staff(AfterAdd(departments, name, department), department);
      multiset(staff)[name] == 1
  {
    var staff := Staff(departments, department);
    if name in staff {
      StrictlyAscendingCountsOne(staff);
    } else {
      SortedInsertStaysStrict(staff, name);
    }
  }

  /** Adding the same employee twice leaves the directory as one add does. */
  lemma AddIdempotent(departments: map<string, seq<string>>, name: string, department: string)
    ensures var once := AfterAdd(departments, name, department);
      AfterAdd(once, name, department) == once
      && AddMessage(once, name, department) == name + " is already in " + department
  {
    var staff := Staff(departments, department);
    if name !in staff {
      var r := SortStrings(staff + [name]);
      assert name in multiset(r);
    }
  }

  class Company {
    var departments: map<string, seq<string>>

    ghost predicate Valid()
      reads this
    {
      Organised(departments)
    }

    /** `Company::new`: no departments. */
    constructor ()
      ensures Valid() && departments == map[]
    {
      departments := map[];
    }

    /** `add_employee`: a name already in the department changes nothing;
        otherwise the department is created if absent and its list becomes
        the sorted old list plus the name. */
    method AddEmployee(name: string, department: string) returns (message: string)
      requires Valid()
      modifies this
      ensures Valid()
      ensures departments == AfterAdd(old(departments), name, department)
      ensures message == AddMessage(old(departments), name, department)
      ensures department in departments && multiset(departments[department])[name] == 1
    {
      AfterAddOrganised(departments, name, department);
      var employees := Staff(departments, department);
      if name !in employees {
        employees := SortStrings(employees + [name]);
        departments := departments[department := employees];
        message := "Added " + name + " to " + department;
      } else {
        message := name + " is already in " + department;
      }
    }

    /** `list_department`: a heading and the stored names in stored order,
        or a notice when the department is absent or empty. */
    method ListDepartment(department: string) returns (lines: seq<string>)
      ensures lines == DepartmentListing(departments, department)
    {
      if department in departments && departments[department] != [] {
        var employees := departments[department];
        lines := ["", department + " department:"];
        for i := 0 to |employees|
          invariant lines == ["", department + " department:"] + Bullets(employees[..i])
        {
          assert employees[..i + 1][..i] == employees[..i];
          lines := lines + ["- " + employees[i]];
        }
        assert employees[..|employees|] == employees;
      } else {
        lines := ["No employees found in " + department];
      }
    }

    /** `list_all`: collects the department names (in hash order), sorts
        them and lists each department once, in ascending name order. */
    method ListAll() returns (lines: seq<string>)
      ensures lines == CompanyListing(departments)
    {
      if departments == map[] {
        lines := ["No employees in the company"];
        return;
      }
      var names := CollectNames(departments.Keys);
      var sorted := SortStrings(names);
      SortedCollectedNames(names, departments.Keys);
      var sections := [];
      for i := 0 to |sorted|
        invariant sections == Sections(departments, sorted[..i])
      {
        var section := ListDepartment(sorted[i]);
        SectionsSnoc(departments, sorted, i);
        sections := sections + section;
      }
      assert sorted[..|sorted|] == sorted;
      lines := ["", "All departments:"] + sections;
    }

    /** One turn of the (commented-out) `Company`-based loop: run the command
        and return what it prints; `stop` is set by `Exit` only. */
    method Execute(cmd: Command) returns (stop: bool, lines: seq<string>)
      requires Valid()
      modifies this
      ensures Valid()
      ensures stop <==> cmd.Exit?
      ensures departments == Next(old(departments), cmd)
      ensures lines == Reply(old(departments), cmd)
    {
      stop := false;
      match cmd
      case Add(name, department) =>
        var message := AddEmployee(name, department);
        lines := [message];
      case ListDepartment(department) =>
        lines := ListDepartment(department);
      case ListAll() =>
        lines := ListAll();
      case Exit() =>
        lines := ["Goodbye!"];
        stop := true;
      case Invalid() =>
        lines := ["Invalid command!"] + HelpLines();
    }

    /** The commented-out `main`: greets, prints the help, then runs one
        command per input line until `Exit` or until the lines run out. */
    method Session(inputs: seq<string>) returns (output: seq<string>)
      requires Valid()
      modifies this
      ensures Valid()
      ensures output == WelcomeLines() + Transcript(old(departments), inputs)
    {
      output := WelcomeLines();
      var i := 0;
      while i < |inputs|
        invariant i <= |inputs| && Valid()
        invariant output + Transcript(departments, inputs[i..])
               == WelcomeLines() + Transcript(old(departments), inputs)
      {
        var cmd := ParseCommand(Trim(inputs[i]));
        ghost var before := departments;
        var stop, lines := Execute(cmd);
        SessionStep(before, cmd, inputs, i);
        PrintMore(output, lines, if stop then [] else Transcript(departments, inputs[i + 1..]));
        output := output + lines;
        if stop {
          return;
        }
        i := i + 1;
      }
    }
  }

  // ---------------------------------------------------------- session

  /** Trimming the line first, as the `Company` loop does, changes no command. */
  lemma ParseIgnoresTrim(input: string)
    ensures ParseCommand(Trim(input)) == ParseCommand(input)
  {
    SplitTrim(input);
  }

  /** Running line `i` of a session appends its reply to what was printed. */
  lemma SessionStep(departments: map<string, seq<string>>, cmd: Command, inputs: seq<string>, i: nat)
    requires i < |inputs| && cmd == ParseCommand(Trim(inputs[i]))
    ensures Transcript(departments, inputs[i..])
         == Reply(departments, cmd) + if cmd.Exit? then [] else Transcript(Next(departments, cmd), inputs[i + 1..])
  {
    var rest := inputs[i..];
    assert rest[0] == inputs[i] && rest[1..] == inputs[i + 1..];
  }

  /** Printing `lines` and then `later` prints `lines + later`. */
  lemma PrintMore(printed: seq<string>, lines: seq<string>, later: seq<string>)
    ensures (printed + lines) + later == printed + (lines + later)
  {
  }

  /** The greeting and help the `Company` loop prints before the first line. */
  function WelcomeLines(): seq<string> {
    ["Welcome to Company Directory!"] + HelpLines()
  }

  /** The directory after running `cmd`: only `Add` changes it. */
  function Next(departments: map<string, seq<string>>, cmd: Command): map<string, seq<string>> {
    if cmd.Add? then AfterAdd(departments, cmd.name, cmd.department) else departments
  }

  /** The lines running `cmd` prints. */
  ghost function Reply(departments: map<string, seq<string>>, cmd: Command): seq<string> {
    match cmd
    case Add(name, department) => [AddMessage(departments, name, department)]
    case ListDepartment(department) => DepartmentListing(departments, department)
    case ListAll() => CompanyListing(departments)
    case Exit() => ["Goodbye!"]
    case Invalid() => ["Invalid command!"] + HelpLines()
  }

  /** What the `Company` loop prints for the input lines, starting from
      `departments`: each line is trimmed, parsed and run, and `Exit` ends
      the session. */
  ghost function Transcript(departments: map<string, seq<string>>, inputs: seq<string>): seq<string>
    decreases |inputs|
  {
    if inputs == [] then []
    else
      var cmd := ParseCommand(Trim(inputs[0]));
      Reply(departments, cmd) + if cmd.Exit? then [] else Transcript(Next(departments, cmd), inputs[1..])
  }

  /** One step of a session: the first line, read as a command, is run,
      and the session goes on from the new directory unless it was `Exit`. */
  lemma TranscriptStep(departments: map<string, seq<string>>, cmd: Command, rest: seq<string>)
    requires WellFormed(cmd)
    ensures Transcript(departments, [Unparse(cmd)] + rest)
         == Reply(departments, cmd) + if cmd.Exit? then [] else Transcript(Next(departments, cmd), rest)
  {
    ParseIgnoresTrim(Unparse(cmd));
    ParseUnparse(cmd);
    assert ([Unparse(cmd)] + rest)[1..] == rest;
  }

  /** Adding to a department that does not exist yet creates it with that
      one employee and announces the addition. */
  lemma AddToNewDepartment(departments: map<string, seq<string>>, name: string, department: string, rest: seq<string>)
    requires IsWord(name) && IsWord(department) && department !in departments
    ensures Transcript(departments, [Unwords(["add", name, "to", department])] + rest)
         == ["Added " + name + " to " + department] + Transcript(departments[department := [name]], rest)
  {
    TranscriptStep(departments, Add(name, department), rest);
    assert SortStrings([] + [name]) == [name];
  }

  /** Adding an employee already in the department changes nothing and says so. */
  lemma AddAgain(departments: map<string, seq<string>>, name: string, department: string, rest: seq<string>)
    requires IsWord(name) && IsWord(department) && department in departments && name in departments[department]
    ensures Transcript(departments, [Unwords(["add", name, "to", department])] + rest)
         == [name + " is already in " + department] + Transcript(departments, rest)
  {
    TranscriptStep(departments, Add(name, department), rest);
  }

  /** `list all` prints the whole listing and changes nothing. */
  lemma ListAllStep(departments: map<string, seq<string>>, rest: seq<string>)
    ensures Transcript(departments, [Unwords(["list", "all"])] + rest)
         == CompanyListing(departments) + Transcript(departments, rest)
  {
    TranscriptStep(departments, ListAll, rest);
  }

  /** `exit` says goodbye, and nothing after it is read. */
  lemma ExitStep(departments: map<string, seq<string>>, rest: seq<string>)
    ensures Transcript(departments, ["exit"] + rest) == ["Goodbye!"]
  {
    TranscriptStep(departments, Exit, rest);
  }

  /** Two department names in ascending order are listed in that order. */
  lemma TwoDepartmentOrder(first: string, second: string)
    requires StrLt(first, second)
    ensures SortedNames({first, second}) == [first, second]
  {
    StrictlyAscendingUnique([first, second], SortedNames({first, second}));
  }

  /** The listings of two departments are the first one's, then the second one's. */
  lemma SectionsPair(departments: map<string, seq<string>>, first: string, second: string)
    ensures Sections(departments, [first, second])
         == DepartmentListing(departments, first) + DepartmentListing(departments, second)
  {
    assert [first, second][..1] == [first];
    assert [first][..0] == [];
    assert Sections(departments, [first]) == DepartmentListing(departments, first);
  }

  /** Listing a company of two one-person departments: the header, then
      the departments in ascending name order, each with its employee. */
  lemma TwoDepartmentListing(a: string, x: string, b: string, y: string)
    requires StrLt(a, b)
    ensures CompanyListing(map[a := [x], b := [y]])
         == ["", "All departments:"] + (["", a + " department:", "- " + x] + ["", b + " department:", "- " + y])
  {
    var d := map[a := [x], b := [y]];
    assert d.Keys == {a, b};
    TwoDepartmentOrder(a, b);
    SectionsPair(d, a, b);
    OnePersonListing(d, a, x);
    OnePersonListing(d, b, y);
  }

  /** A department of one employee is listed as its heading and that name. */
  lemma OnePersonListing(departments: map<string, seq<string>>, department: string, name: string)
    requires department in departments && departments[department] == [name]
    ensures DepartmentListing(departments, department) == ["", department + " department:", "- " + name]
  {
    assert Bullets([name]) == ["- " + name];
  }

  // The four stages of `ExampleSession`, each proved on its own.

  lemma SessionFirstAdd(a: string, x: string, b: string, y: string)
    requires IsWord(a) && IsWord(x) && IsWord(b) && IsWord(y) && StrLt(a, b)
    ensures var ux, uy, ul := Unwords(["add", x, "to", a]), Unwords(["add", y, "to", b]), Unwords(["list", "all"]);
      Transcript(map[], [ux, uy, ux, ul, "exit"])
        == ["Added " + x + " to " + a] + Transcript(map[a := [x]], [uy, ux, ul, "exit"])
  {
    var ux, uy, ul := Unwords(["add", x, "to", a]), Unwords(["add", y, "to", b]), Unwords(["list", "all"]);
    assert [ux, uy, ux, ul, "exit"] == [ux] + [uy, ux, ul, "exit"];
    AddToNewDepartment(map[], x, a, [uy, ux, ul, "exit"]);
  }

  lemma SessionSecondAdd(a: string, x: string, b: string, y: string)
    requires IsWord(a) && IsWord(x) && IsWord(b) && IsWord(y) && StrLt(a, b)
    ensures var ux, uy, ul := Unwords(["add", x, "to", a]), Unwords(["add", y, "to", b]), Unwords(["list", "all"]);
      Transcript(map[a := [x]], [uy, ux, ul, "exit"])
        == ["Added " + y + " to " + b] + Transcript(map[a := [x], b := [y]], [ux, ul, "exit"])
  {
    var ux, uy, ul := Unwords(["add", x, "to", a]), Unwords(["add", y, "to", b]), Unwords(["list", "all"]);
    assert [uy, ux, ul, "exit"] == [uy] + [ux, ul, "exit"];
    assert map[a := [x]][b := [y]] == map[a := [x], b := [y]];
    AddToNewDepartment(map[a := [x]], y, b, [ux, ul, "exit"]);
  }

  lemma SessionRepeatedAdd(a: string, x: string, b: string, y: string)
    requires IsWord(a) && IsWord(x) && IsWord(b) && IsWord(y) && StrLt(a, b)
    ensures var ux, ul := Unwords(["add", x, "to", a]), Unwords(["list", "all"]);
      Transcript(map[a := [x], b := [y]], [ux, ul, "exit"])
        == [x + " is already in " + a] + Transcript(map[a := [x], b := [y]], [ul, "exit"])
  {
    var ux, ul := Unwords(["add", x, "to", a]), Unwords(["list", "all"]);
    assert [ux, ul, "exit"] == [ux] + [ul, "exit"];
    AddAgain(map[a := [x], b := [y]], x, a, [ul, "exit"]);
  }

  /** A listing line then `exit`: the listing, then goodbye. */
  lemma ListAllThenExit(departments: map<string, seq<string>>, line: string)
    requires ParseCommand(Trim(line)) == ListAll
    ensures Transcript(departments, [line, "exit"]) == CompanyListing(departments) + ["Goodbye!"]
  {
    assert [line, "exit"][1..] == ["exit"];
    ExitStep(departments, []);
    assert ["exit"] == ["exit"] + [];
  }

  lemma ListAllLine()
    ensures ParseCommand(Trim(Unwords(["list", "all"]))) == ListAll
  {
    ParseIgnoresTrim(Unparse(ListAll));
    ParseUnparse(ListAll);
  }

  lemma SessionListAndExit(a: string, x: string, b: string, y: string)
    requires StrLt(a, b)
    ensures Transcript(map[a := [x], b := [y]], [Unwords(["list", "all"]), "exit"])
        == ["", "All departments:"] + (["", a + " department:", "- " + x] + ["", b + " department:", "- " + y])
         + ["Goodbye!"]
  {
    ListAllLine();
    ListAllThenExit(map[a := [x], b := [y]], Unwords(["list", "all"]));
    TwoDepartmentListing(a, x, b, y);
  }

  /** An example session, for any two employees
      `x` and `y` and departments `a` before `b`: two additions, a
      repeated one, the whole listing, and `exit`. */
  lemma ExampleSession(a: string, x: string, b: string, y: string)
    requires IsWord(a) && IsWord(x) && IsWord(b) && IsWord(y) && StrLt(a, b)
    ensures Transcript(map[], [
        Unwords(["add", x, "to", a]),
        Unwords(["add", y, "to", b]),
        Unwords(["add", x, "to", a]),
        Unwords(["list", "all"]),
        "exit"])
      == ["Added " + x + " to " + a]
       + (["Added " + y + " to " + b]
       + ([x + " is already in " + a]
       + (["", "All departments:"] + (["", a + " department:", "- " + x] + ["", b + " department:", "- " + y])
       + ["Goodbye!"])))
  {
    SessionFirstAdd(a, x, b, y);
    SessionSecondAdd(a, x, b, y);
    SessionRepeatedAdd(a, x, b, y);
    SessionListAndExit(a, x, b, y);
  }

  // ------------------------------------------------------------ live main

  /** Every stored list is non-empty and ascending (duplicates allowed). */
  ghost predicate AllSorted(company: map<string, seq<string>>) {
    forall d :: d in company ==> company[d] != [] && SortedBy(company[d], StrLe)
  }

  /** The body of the live `main` loop for one input line: the trimmed line
      `exit` stops; a line of other than four words prints `Invalid input`;
      otherwise the second word is appended to the fourth word's list, which
      is sorted again. The verb and the third word are never looked at and a
      repeated name is stored again. */
  method LiveStep(company: map<string, seq<string>>, input: string)
    returns (stop: bool, next: map<string, seq<string>>, output: seq<string>)
    ensures var line := Trim(input);
      && (stop <==> line == "exit")
      && (stop ==> next == company && output == [])
    ensures var parts := SplitWhitespace(input);
      && (!stop && |parts| != 4 ==> next == company && output == ["Invalid input"])
      && (!stop && |parts| == 4 ==>
            && next == company[parts[3] := SortStrings(Staff(company, parts[3]) + [parts[1]])]
            && multiset(next[parts[3]]) == multiset(Staff(company, parts[3])) + multiset{parts[1]}
            && output == [])
    ensures AllSorted(company) ==> AllSorted(next)
  {
    var line := Trim(input);
    SplitTrim(input);
    if line == "exit" {
      return true, company, [];
    }
    var parts := SplitWhitespace(line);
    if |parts| != 4 {
      return false, company, ["Invalid input"];
    }
    var name := parts[1];
    var department := parts[3];
    var employees := Staff(company, department);
    employees := SortStrings(employees + [name]);
    next := company[department := employees];
    stop, output := false, [];
  }
}
