/** What a quote in the program name does to the arguments after it.

    CommandLineToArgvW ends the name at its first quote. The rest of its text is
    then read by the argument rules, outside quotes, so that every quote after
    it opens where it should close. */
module ProgramQuotes {
  import opened ArgumentQuoting

  ghost predicate NoBlanks(text: string) {
    forall i :: 0 <= i < |text| ==> !Blank(text[i])
  }

  // ----- escaped text outside quotes -----

  lemma BeforeJoins(x: string, y: string, z: string, parsed: Parsed)
    requires x + y == z
    ensures Before(x, Before(y, parsed)) == Before(z, parsed)
  {
    assert x + (y + parsed.argument) == (x + y) + parsed.argument;
  }

  /** Without blanks, all of it joins what the closing quote now opens. */
  lemma {:induction false} ReadToken(text: string, slashes: nat, line: string, doubling: bool)
    requires NoBlanks(text)
    ensures Read(Escaped(text, slashes) + ("\"" + line), 0, false, doubling)
         == Before(Slashes(slashes) + text, Read(line, 0, true, doubling))
    decreases |text|
  {
    hide Read, Emitted;
    var tail := "\"" + line;
    if text == "" {
      assert Escaped(text, slashes) == Slashes(2 * slashes) && Slashes(slashes) + "" == Slashes(slashes);
      ReadSlashes(2 * slashes, tail, 0, false, doubling);
      ReadOpens(slashes, line, doubling);
    } else {
      var c := text[0];
      var next := Escaped(text[1..], Held(c, slashes)) + tail;
      EscapedNext(text, slashes, tail);
      ReadToken(text[1..], Held(c, slashes), line, doubling);
      HeldJoins(text, slashes);
      if c == '\\' {
        EmittedNothing(slashes, next);
        assert "" + (Slashes(Held(c, slashes)) + text[1..]) == Slashes(Held(c, slashes)) + text[1..];
      } else {
        ReadEmitted(c, slashes, next, false, doubling);
        BeforeJoins(Slashes(slashes) + [c], Slashes(Held(c, slashes)) + text[1..],
          Slashes(slashes) + text, Read(line, 0, true, doubling));
      }
    }
  }

  lemma EmittedNothing(slashes: nat, next: string)
    ensures Emitted('\\', slashes) + next == next
  {
  }

  lemma ReadOpens(n: nat, line: string, doubling: bool)
    ensures Read("\"" + line, 2 * n, false, doubling) == Before(Slashes(n), Read(line, 0, true, doubling))
  {
    assert ("\"" + line)[1..] == line;
    assert (2 * n) / 2 == n && (2 * n) % 2 == 0;
  }

  /** A blank ends an argument there. */
  lemma {:induction false} ReadWord(word: string, slashes: nat, blank: char, text: string, tail: string, doubling: bool)
    requires NoBlanks(word) && Blank(blank)
    ensures Read(Escaped(word + ([blank] + text), slashes) + tail, 0, false, doubling)
         == Parsed(Slashes(slashes) + word, [blank] + (Escaped(text, 0) + tail))
    decreases |word|
  {
    hide Read, Emitted;
    var all := word + ([blank] + text);
    EscapedNext(all, slashes, tail);
    var c := all[0];
    var next := Escaped(all[1..], Held(c, slashes)) + tail;
    if word == "" {
      assert all[1..] == text && Slashes(slashes) + "" == Slashes(slashes);
      assert Held(c, slashes) == 0;
      BlankEmitted(blank, slashes, next);
      ReadSlashes(slashes, [blank] + next, 0, false, doubling);
      ReadBlank(blank, next, slashes, doubling);
    } else {
      assert all[1..] == word[1..] + ([blank] + text);
      ReadWord(word[1..], Held(c, slashes), blank, text, tail, doubling);
      HeldJoins(word, slashes);
      if c == '\\' {
        EmittedNothing(slashes, next);
        assert "" + (Slashes(Held(c, slashes)) + word[1..]) == Slashes(Held(c, slashes)) + word[1..];
      } else {
        ReadEmitted(c, slashes, next, false, doubling);
      }
    }
  }

  lemma BlankEmitted(blank: char, slashes: nat, next: string)
    requires Blank(blank)
    ensures Emitted(blank, slashes) + next == Slashes(slashes) + ([blank] + next)
  {
  }

  lemma ReadBlank(blank: char, next: string, slashes: nat, doubling: bool)
    requires Blank(blank)
    ensures Read([blank] + next, slashes, false, doubling) == Parsed(Slashes(slashes), [blank] + next)
  {
  }

  // ----- the words of a text -----

  /** The first blank of a text, or its end. */
  function Cut(text: string): (n: nat)
    ensures n <= |text| && NoBlanks(text[..n]) && (n < |text| ==> Blank(text[n]))
  {
    if text == "" || Blank(text[0]) then 0 else 1 + Cut(text[1..])
  }

  /** The arguments that blanks end, and the text after the last blank. */
  function Words(text: string): seq<string>
    decreases |text|
  {
    var n := Cut(text);
    if n == |text| then [] else (if n == 0 then [] else [text[..n]]) + Words(text[n + 1..])
  }

  function LastWord(text: string): (last: string)
    ensures NoBlanks(last)
    decreases |text|
  {
    var n := Cut(text);
    if n == |text| then (assert text[..n] == text; text) else LastWord(text[n + 1..])
  }

  lemma {:induction false} CutAt(text: string, n: nat)
    requires n <= |text| && NoBlanks(text[..n]) && (n < |text| ==> Blank(text[n]))
    ensures Cut(text) == n
    decreases n
  {
    if n > 0 {
      assert text[..n][0] == text[0];
      assert text[1..][..n - 1] == text[..n][1..];
      CutAt(text[1..], n - 1);
    }
  }

  lemma WordAlone(word: string)
    requires NoBlanks(word)
    ensures Words(word) == [] && LastWord(word) == word
  {
    assert word[..|word|] == word;
    CutAt(word, |word|);
  }

  lemma WordThen(word: string, blank: char, rest: string)
    requires NoBlanks(word) && Blank(blank)
    ensures Words(word + ([blank] + rest)) == (if word == "" then [] else [word]) + Words(rest)
    ensures LastWord(word + ([blank] + rest)) == LastWord(rest)
  {
    var text := word + ([blank] + rest);
    assert text[..|word|] == word && text[|word| + 1..] == rest;
    CutAt(text, |word|);
  }

  /** The line is read on inside quotes, in an argument that begins with `start`. */
  ghost function Open(start: string, line: string, doubling: bool): (r: seq<string>)
    ensures |r| > 0
  {
    var parsed := Read(line, 0, true, doubling);
    [start + parsed.argument] + ReadArguments(parsed.rest, doubling)
  }

  lemma OpenIs(start: string, line: string, before: string, rest: string, doubling: bool)
    requires Read(line, 0, true, doubling) == Before(before, Read(rest, 0, true, doubling))
    ensures Open(start, line, doubling) == Open(start + before, rest, doubling)
  {
    var parsed := Read(rest, 0, true, doubling);
    assert start + (before + parsed.argument) == (start + before) + parsed.argument;
  }

  lemma ReadArgumentsBlank(blank: char, line: string, doubling: bool)
    requires Blank(blank)
    ensures ReadArguments([blank] + line, doubling) == ReadArguments(line, doubling)
  {
    assert ([blank] + line)[1..] == line;
    hide Read;
  }

  lemma EscapedStarts(text: string)
    requires text != ""
    ensures Escaped(text, 0) != "" && Escaped(text, 0)[0] != '"'
    ensures !Blank(text[0]) ==> !Blank(Escaped(text, 0)[0])
  {
    EscapedHeld(text, 0);
  }

  lemma {:induction false} EscapedHeld(text: string, slashes: nat)
    requires slashes > 0 || text != ""
    ensures Escaped(text, slashes) != ""
    ensures slashes > 0 ==> Escaped(text, slashes)[0] == '\\'
    ensures slashes == 0 ==> Escaped(text, slashes)[0] == if text[0] == '"' then '\\' else text[0]
    decreases |text|
  {
    if text != "" {
      var c := text[0];
      if c == '\\' {
        EscapedHeld(text[1..], slashes + 1);
      }
      assert Escaped(text, slashes) == Emitted(c, slashes) + Escaped(text[1..], Held(c, slashes));
    }
  }

  /** Escaped text outside quotes, up to the quote that should close it. */
  lemma {:induction false} ReadText(text: string, line: string, doubling: bool)
    ensures ReadArguments(Escaped(text, 0) + ("\"" + line), doubling)
         == Words(text) + Open(LastWord(text), line, doubling)
    decreases |text|
  {
    hide *;
    var n, tail := Cut(text), "\"" + line;
    if n == |text| {
      assert text[..n] == text;
      WordAlone(text);
      ReadLast(text, line, doubling);
      assert [] + Open(text, line, doubling) == Open(text, line, doubling);
    } else {
      var word, blank, rest := text[..n], text[n], text[n + 1..];
      assert text == word + ([blank] + rest);
      WordThen(word, blank, rest);
      ReadText(rest, line, doubling);
      ReadArgumentsBlank(blank, Escaped(rest, 0) + tail, doubling);
      ReadFirst(word, blank, rest, tail, doubling);
      var first := if word == "" then [] else [word];
      assert first + (Words(rest) + Open(LastWord(rest), line, doubling))
        == first + Words(rest) + Open(LastWord(rest), line, doubling);
    }
  }

  lemma ReadFirst(word: string, blank: char, rest: string, tail: string, doubling: bool)
    requires NoBlanks(word) && Blank(blank)
    ensures ReadArguments(Escaped(word + ([blank] + rest), 0) + tail, doubling)
         == (if word == "" then [] else [word]) + ReadArguments([blank] + (Escaped(rest, 0) + tail), doubling)
  {
    var text := word + ([blank] + rest);
    assert Slashes(0) + word == word;
    if word == "" {
      assert text[1..] == rest;
      EscapedNext(text, 0, tail);
      BlankEmitted(blank, 0, Escaped(rest, 0) + tail);
      assert Slashes(0) + ([blank] + (Escaped(rest, 0) + tail)) == [blank] + (Escaped(rest, 0) + tail);
    } else {
      ReadWord(word, 0, blank, rest, tail, doubling);
      assert text[0] == word[0];
      EscapedStarts(text);
      var line := Escaped(text, 0) + tail;
      assert line[0] == Escaped(text, 0)[0];
      ReadNext(line, line, Parsed(word, [blank] + (Escaped(rest, 0) + tail)), doubling);
    }
  }

  lemma ReadLast(text: string, line: string, doubling: bool)
    requires NoBlanks(text)
    ensures ReadArguments(Escaped(text, 0) + ("\"" + line), doubling) == Open(text, line, doubling)
  {
    ReadToken(text, 0, line, doubling);
    assert Slashes(0) + text == text;
    var all := Escaped(text, 0) + ("\"" + line);
    if text != "" {
      EscapedStarts(text);
      assert all[0] == Escaped(text, 0)[0];
    }
    ReadNext(all, all, Before(text, Read(line, 0, true, doubling)), doubling);
  }

  // ----- the arguments after it, read inside quotes -----

  lemma ReadQuotedSpace(line: string, doubling: bool)
    ensures Read(" " + line, 0, true, doubling) == Before(" ", Read(line, 0, true, doubling))
  {
    ReadOther(' ', 0, line, true, doubling);
    assert Slashes(0) + " " == " ";
  }

  lemma ReadCloses(line: string, doubling: bool)
    requires line == "" || line[0] != '"'
    ensures Read("\"" + line, 0, true, doubling) == Read(line, 0, false, doubling)
  {
    ReadQuote(0, line, doubling);
    assert 2 * 0 == 0;
    var parsed := Read(line, 0, false, doubling);
    assert Slashes(0) + parsed.argument == parsed.argument;
  }

  /** Bare text inside quotes. */
  lemma {:induction false} ReadBare(text: string, slashes: nat, rest: string, doubling: bool)
    requires AllPlain(text) && Ends(rest)
    ensures Read(text + rest, slashes, true, doubling) == Before(Slashes(slashes) + text, Read(rest, 0, true, doubling))
    decreases |text|
  {
    if text == "" {
      assert text + rest == rest && Slashes(slashes) + text == Slashes(slashes);
      ReadHeld(slashes, rest, doubling);
    } else {
      var c := text[0];
      assert PlainCharacter(c) && AllPlain(text[1..]);
      assert (text + rest)[1..] == text[1..] + rest;
      ReadBare(text[1..], Held(c, slashes), rest, doubling);
      HeldJoins(text, slashes);
      var parsed := Read(rest, 0, true, doubling);
      if c == '\\' {
        assert "" + (Slashes(Held(c, slashes)) + text[1..]) == Slashes(Held(c, slashes)) + text[1..];
      } else {
        BeforeJoins(Slashes(slashes) + [c], Slashes(0) + text[1..], Slashes(slashes) + text, parsed);
      }
    }
  }

  lemma ReadHeld(slashes: nat, rest: string, doubling: bool)
    requires Ends(rest)
    ensures Read(rest, slashes, true, doubling) == Before(Slashes(slashes), Read(rest, 0, true, doubling))
  {
    if rest == "" {
      assert Slashes(slashes) + "" == Slashes(slashes);
    } else {
      var next := Read(rest[1..], 0, true, doubling);
      assert Read(rest, 0, true, doubling) == Before(Slashes(0) + " ", next);
      assert Slashes(0) + " " == " " && Slashes(slashes) + (" " + next.argument)
        == (Slashes(slashes) + " ") + next.argument;
    }
  }

  /** A word after a space only adds to the argument being read. */
  lemma OpenWord(start: string, word: string, rest: string, doubling: bool)
    requires word != "" && NoBlanks(word) && Ends(rest)
    ensures Open(start, " " + (Quoted(word) + rest), doubling) == Open(start + (" " + word), rest, doubling)
  {
    hide Read, Escaped, Open;
    ReadQuotedSpace(Quoted(word) + rest, doubling);
    var parsed := Read(rest, 0, true, doubling);
    assert Slashes(0) + word == word;
    if Plain(word) {
      assert AllPlain(word);
      ReadBare(word, 0, rest, doubling);
    } else {
      var line := Escaped(word, 0) + ("\"" + rest);
      assert Quoted(word) + rest == "\"" + line;
      EscapedStarts(word);
      assert line[0] == Escaped(word, 0)[0];
      ReadCloses(line, doubling);
      ReadToken(word, 0, rest, doubling);
    }
    BeforeJoins(" ", word, " " + word, parsed);
    OpenIs(start, " " + (Quoted(word) + rest), " " + word, rest, doubling);
  }

  lemma ReadBroken(word: string, blank: char, more: string, rest: string, doubling: bool)
    requires NoBlanks(word) && Blank(blank)
    ensures Read(" " + (Quoted(word + ([blank] + more)) + rest), 0, true, doubling)
         == Parsed(" " + word, [blank] + (Escaped(more, 0) + ("\"" + rest)))
  {
    hide Read, Escaped;
    var text := word + ([blank] + more);
    assert text[|word|] == blank && !PlainCharacter(blank);
    var line := Escaped(text, 0) + ("\"" + rest);
    assert Quoted(text) + rest == "\"" + line;
    ReadQuotedSpace(Quoted(text) + rest, doubling);
    EscapedStarts(text);
    assert line[0] == Escaped(text, 0)[0];
    ReadCloses(line, doubling);
    ReadWord(word, 0, blank, more, "\"" + rest, doubling);
    assert Slashes(0) + word == word;
  }

  lemma OpenBroken(start: string, line: string, word: string, rest: string, doubling: bool)
    requires Read(line, 0, true, doubling) == Parsed(word, rest)
    ensures Open(start, line, doubling) == [start + word] + ReadArguments(rest, doubling)
  {
  }

  /** Blanks within an argument end arguments, as quotes inside out. */
  lemma OpenText(start: string, word: string, blank: char, more: string, rest: string, doubling: bool)
    requires NoBlanks(word) && Blank(blank)
    ensures Open(start, " " + (Quoted(word + ([blank] + more)) + rest), doubling)
         == [start + (" " + word)] + (Words(more) + Open(LastWord(more), rest, doubling))
  {
    hide *;
    var tail := "\"" + rest;
    ReadBroken(word, blank, more, rest, doubling);
    OpenBroken(start, " " + (Quoted(word + ([blank] + more)) + rest), " " + word,
      [blank] + (Escaped(more, 0) + tail), doubling);
    ReadArgumentsBlank(blank, Escaped(more, 0) + tail, doubling);
    ReadText(more, rest, doubling);
  }

  /** Two quotes inside quotes are a quote, or close and open again. */
  lemma OpenNothing(start: string, rest: string, doubling: bool)
    requires Ends(rest)
    ensures Open(start, " " + (Quoted("") + rest), doubling)
         == Open(start + if doubling then " \"" else " ", rest, doubling)
  {
    var line, read := "\"" + rest, Read(rest, 0, true, doubling);
    ReadQuotedSpace(Quoted("") + rest, doubling);
    assert Escaped("", 0) == "" && Quoted("") + rest == "\"" + line;
    assert ("\"" + line)[1..] == line && ("\"" + line)[2..] == rest;
    if doubling {
      assert Read("\"" + line, 0, true, doubling) == Before(Slashes(0) + "\"", read);
      BeforeJoins(" ", Slashes(0) + "\"", " \"", read);
      OpenIs(start, " " + (Quoted("") + rest), " \"", rest, doubling);
    } else {
      ReadOpens(0, rest, doubling);
      assert Read("\"" + line, 0, true, doubling) == Before(Slashes(0), Read(line, 0, false, doubling));
      BeforeJoins(Slashes(0), Slashes(0), "", read);
      BeforeJoins(" ", "", " ", read);
      OpenIs(start, " " + (Quoted("") + rest), " ", rest, doubling);
    }
  }

  /** An argument read inside quotes leaves another beginning to what comes
      after it, and never the argument itself. */
  lemma OpenArgument(start: string, text: string, rest: string, doubling: bool)
    returns (before: seq<string>, next: string)
    requires Ends(rest)
    ensures Open(start, " " + (Quoted(text) + rest), doubling) == before + Open(next, rest, doubling) && next != text
  {
    hide *;
    var n := Cut(text);
    assert text[..|text|] == text;
    if text == "" {
      before, next := [], start + if doubling then " \"" else " ";
      OpenNothing(start, rest, doubling);
      assert before + Open(next, rest, doubling) == Open(next, rest, doubling);
    } else if n == |text| {
      before, next := [], start + (" " + text);
      OpenWord(start, text, rest, doubling);
      assert before + Open(next, rest, doubling) == Open(next, rest, doubling);
      assert |next| > |text|;
    } else {
      var word, blank, more := text[..n], text[n], text[n + 1..];
      assert text == word + ([blank] + more);
      before, next := [start + (" " + word)] + Words(more), LastWord(more);
      OpenText(start, word, blank, more, rest, doubling);
      HoldsBlank(text, n, next);
      var first := [start + (" " + word)];
      assert first + (Words(more) + Open(next, rest, doubling)) == before + Open(next, rest, doubling);
    }
  }

  lemma HoldsBlank(text: string, n: nat, other: string)
    requires n < |text| && Blank(text[n]) && NoBlanks(other)
    ensures text != other
  {
  }

  lemma OpenEnds(start: string, doubling: bool)
    ensures Open(start, Following([]), doubling) == [start]
  {
    assert Slashes(0) == "" && start + "" == start;
  }

  // ----- it never comes out right -----

  /** With an argument that begins with `start` being read inside quotes, the
      last of the arguments still to come is not the last that is read. */
  lemma {:induction false} NeverInStep(start: string, arguments: seq<string>, doubling: bool)
    requires arguments != []
    ensures
      var read := Open(start, Following(arguments), doubling);
      read[|read| - 1] != arguments[|arguments| - 1]
    decreases |arguments|
  {
    hide *;
    var text, more := arguments[0], arguments[1..];
    FollowingNext(arguments);
    FollowingEnds(more);
    var before, next := OpenArgument(start, text, Following(more), doubling);
    if more == [] {
      OpenEnds(next, doubling);
    } else {
      NeverInStep(next, more, doubling);
    }
  }

  // ----- the whole line -----

  function AfterQuote(text: string): string
    requires '"' in text
  {
    if text[0] == '"' then text[1..] else AfterQuote(text[1..])
  }

  lemma {:induction false} UntilQuoteSkips(text: string, rest: string)
    requires '"' !in text
    ensures UntilQuote(text + rest).rest == UntilQuote(rest).rest
  {
    if text == "" {
      assert text + rest == rest;
    } else {
      assert (text + rest)[1..] == text[1..] + rest;
      UntilQuoteSkips(text[1..], rest);
    }
  }

  /** A quote in the name ends it, and leaves the rest of its text. */
  lemma {:induction false} NameSpills(text: string, slashes: nat, tail: string)
    requires '"' in text
    ensures UntilQuote(Escaped(text, slashes) + tail).rest == Escaped(AfterQuote(text), 0) + tail
    decreases |text|
  {
    hide UntilQuote;
    var c := text[0];
    var next := Escaped(text[1..], Held(c, slashes)) + tail;
    EscapedNext(text, slashes, tail);
    if c == '"' {
      var before := Slashes(2 * slashes) + "\\";
      assert Emitted(c, slashes) + next == before + ("\"" + next);
      assert '"' !in before;
      UntilQuoteSkips(before, "\"" + next);
      QuoteAtOnce(next);
    } else {
      assert '"' in text[1..];
      assert '"' !in Emitted(c, slashes);
      UntilQuoteSkips(Emitted(c, slashes), next);
      NameSpills(text[1..], Held(c, slashes), tail);
    }
  }

  lemma QuoteAtOnce(line: string)
    ensures UntilQuote("\"" + line).rest == line
  {
    assert ("\"" + line)[1..] == line;
  }

  lemma QuoteSpills(program: string, arguments: seq<string>, doubling: bool)
    requires '"' in program
    ensures ReadArguments(ReadProgram(Quoted(program) + Following(arguments)).rest, doubling) != arguments
  {
    hide *;
    NotPlain(program);
    var text, rest := AfterQuote(program), Following(arguments);
    QuotedProgram(program, rest);
    NameSpills(program, 0, "\"" + rest);
    ReadText(text, rest, doubling);
    if arguments != [] {
      NeverInStep(LastWord(text), arguments, doubling);
    }
  }

  lemma NotPlain(program: string)
    requires '"' in program
    ensures !Plain(program)
  {
    assert !PlainCharacter('"');
  }

  lemma ProgramRest(program: string, rest: string)
    requires Ends(rest) && '"' !in program
    ensures ReadProgram(Quoted(program) + rest).rest == rest
  {
    if Plain(program) {
      PlainProgram(program, rest);
    } else {
      QuotedProgram(program, rest);
      UnescapedProgram(program, rest);
    }
  }

  /** With the name read as CommandLineToArgvW reads it, it reads back exactly when
      it is representable. The arguments after it read back, under either reading
      of doubled quotes, exactly when the name holds no quote. */
  lemma ArgumentsReadBack(arguments: seq<string>, doubling: bool)
    requires arguments != []
    ensures ReadAll(CommandLine(arguments), doubling)[0] == arguments[0] <==> Representable(arguments[0])
    ensures ReadAll(CommandLine(arguments), doubling)[1..] == arguments[1..] <==> '"' !in arguments[0]
    ensures ReadAll(CommandLine(arguments), doubling) == arguments <==> Representable(arguments[0])
  {
    var program, rest := arguments[0], Following(arguments[1..]);
    LineIsProgramThenRest(arguments);
    FollowingEnds(arguments[1..]);
    ProgramReadsBack(program, rest);
    ReadFollowing(arguments[1..], doubling);
    if '"' in program {
      NotPlain(program);
      QuoteSpills(program, arguments[1..], doubling);
    } else {
      ProgramRest(program, rest);
    }
    hide Representable, CommandLine, ReadProgram, ReadArguments, Following;
    assert arguments == [program] + arguments[1..];
  }
}
