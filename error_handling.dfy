/** `last_char_of_first_line` of error-handling/src/main.rs: the last
    character of the first line, where `?` turns an absent first line into
    `None`. Lines are those of `str::lines`: split at `'\n'`, with one `'\r'`
    before that `'\n'` dropped; empty text has no lines. */
module ErrorHandling {

  import opened Options

  /** The position of the first `'\n'`, or the length when there is none. */
  function NewlineIndex(text: string): (i: nat)
    ensures i <= |text| && '\n' !in text[..i]
    ensures i < |text| ==> text[i] == '\n'
  {
    if text == [] || text[0] == '\n' then 0
    else
      var i := NewlineIndex(text[1..]);
      assert text[..i + 1] == [text[0]] + text[1..][..i];
      i + 1
  }

  /** `text.lines().next()`. */
  function FirstLine(text: string): (line: Option<string>)
    ensures line.None? <==> text == []
    ensures line.Some? ==> '\n' !in line.value && |line.value| <= |text| && line.value == text[..|line.value|]
  {
    if text == [] then None
    else
      var i := NewlineIndex(text);
      if 0 < i < |text| && text[i - 1] == '\r' then
        assert text[..i - 1] == text[..i][..i - 1];
        Some(text[..i - 1])
      else Some(text[..i])
  }

  /** A line as `lines` yields it when a `'\n'` follows: without one
      `'\r'` at its end. */
  function DropCarriageReturn(line: string): string {
    if line != [] && line[|line| - 1] == '\r' then line[..|line| - 1] else line
  }

  /** When the text has a newline, the first line is the text before it,
      without the `'\r'` of a `"\r\n"` ending. */
  lemma FirstLineBeforeNewline(line: string, rest: string)
    requires '\n' !in line
    ensures FirstLine(line + "\n" + rest) == Some(DropCarriageReturn(line))
  {
    var text := line + "\n" + rest;
    FirstNewlineAt(text, |line|);
    assert text[..|line|] == line;
    if line != [] {
      assert text[|line| - 1] == line[|line| - 1];
      assert text[..|line| - 1] == line[..|line| - 1];
    }
  }

  /** Non-empty text without a newline is one line, kept whole, a trailing
      `'\r'` included. */
  lemma FirstLineNoNewline(text: string)
    requires text != [] && '\n' !in text
    ensures FirstLine(text) == Some(text)
  {
    assert text[..|text|] == text;
  }

  /** `chars().last()`. */
  function LastChar(s: string): Option<char> {
    if s == [] then None else Some(s[|s| - 1])
  }

  /** `last_char_of_first_line`. */
  function LastCharOfFirstLine(text: string): (c: Option<char>)
    ensures c.Some? ==> c.value != '\n' && c.value in text
    ensures text == [] ==> c.None?
  {
    match FirstLine(text)
    case None => None
    case Some(line) => LastChar(line)
  }

  /** The answer is the last character before the first newline, or before
      the `"\r\n"` that ends the first line. */
  lemma LastCharBeforeNewline(line: string, rest: string)
    requires '\n' !in line
    ensures LastCharOfFirstLine(line + "\n" + rest) == LastChar(DropCarriageReturn(line))
  {
    FirstLineBeforeNewline(line, rest);
  }

  /** Without a newline, the answer is the last character of the text. */
  lemma LastCharNoNewline(text: string)
    requires '\n' !in text
    ensures LastCharOfFirstLine(text) == LastChar(text)
  {
    if text != [] {
      FirstLineNoNewline(text);
    }
  }

  /** The answer is absent exactly for empty text and for text whose first
      line is empty: it starts with `"\n"` or `"\r\n"`. */
  lemma NoLastCharExactly(text: string)
    ensures LastCharOfFirstLine(text).None?
        <==> text == [] || text[0] == '\n' || (|text| >= 2 && text[0] == '\r' && text[1] == '\n')
  {
    if text != [] && text[0] != '\n' {
      var i := NewlineIndex(text);
      assert i > 0;
      if |text| >= 2 && text[0] == '\r' && text[1] == '\n' {
        assert NewlineIndex(text[1..]) == 0;
      }
    }
  }

  /** Text after the first newline does not matter. */
  lemma IgnoresLaterLines(line: string, rest: string)
    requires '\n' !in line
    ensures LastCharOfFirstLine(line + "\n" + rest) == LastCharOfFirstLine(line + "\n")
  {
    var a, b := line + "\n" + rest, line + "\n";
    FirstNewlineAt(a, |line|);
    FirstNewlineAt(b, |line|);
    assert a[..|line|] == line && b[..|line|] == line;
    assert |line| > 0 ==> a[|line| - 1] == b[|line| - 1];
  }

  /** A `'\n'` at `i` with none before it is the first one. */
  lemma {:induction false} FirstNewlineAt(text: string, i: nat)
    requires i < |text| && text[i] == '\n' && '\n' !in text[..i]
    ensures NewlineIndex(text) == i
  {
    if i > 0 {
      assert text[0] == text[..i][0];
      assert text[1..][..i - 1] == text[..i][1..];
      FirstNewlineAt(text[1..], i - 1);
    }
  }

  /** The first line ends before `"\r\n"`, so a Windows line ending is not
      returned as the last character; a `'\r'` with no `'\n'` after it is. */
  lemma LineEndingExamples()
    ensures LastCharOfFirstLine("hi\r\nthere") == Some('i')
    ensures LastCharOfFirstLine("hi\r") == Some('\r')
    ensures LastCharOfFirstLine("\nhi") == None
    ensures LastCharOfFirstLine("") == None
  {
    FirstNewlineAt("hi\r\nthere", 3);
    assert NewlineIndex("hi\r") == 3 by {
      assert '\n' !in "hi\r";
    }
  }
}
