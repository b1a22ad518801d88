/** The same command line, its program name read as the C runtime reads it:
    every quote in the name opens or closes, and a blank outside quotes ends it. */
module RuntimeNames {
  import opened ArgumentQuoting
  import opened ProgramQuotes

  function ReadName(line: string, inQuotes: bool): Parsed {
    if line == "" then Parsed("", "")
    else if line[0] == '"' then ReadName(line[1..], !inQuotes)
    else if Blank(line[0]) && !inQuotes then Parsed("", line)
    else Before([line[0]], ReadName(line[1..], inQuotes))
  }

  function ReadLine(line: string, doubling: bool): seq<string> {
    var name := ReadName(line, false);
    [name.argument] + ReadArguments(name.rest, doubling)
  }

  // ----- what a name does to the quotes -----

  /** Whether quotes are open after the text. */
  function OpenAfter(text: string, inQuotes: bool): bool {
    if text == "" then inQuotes else OpenAfter(text[1..], if text[0] == '"' then !inQuotes else inQuotes)
  }

  /** The text from its first blank outside quotes on, if it has one. */
  function BreaksAt(text: string, inQuotes: bool): (rest: string)
    ensures rest != "" ==> Blank(rest[0]) && |rest| <= |text|
  {
    if text == "" then ""
    else if Blank(text[0]) && !inQuotes then text
    else BreaksAt(text[1..], if text[0] == '"' then !inQuotes else inQuotes)
  }

  lemma {:induction false} BreakIsIn(text: string, inQuotes: bool)
    requires BreaksAt(text, inQuotes) != ""
    ensures !NoBlanks(text)
    decreases |text|
  {
    if Blank(text[0]) && !inQuotes {
      assert Blank(text[0]);
    } else {
      BreakIsIn(text[1..], if text[0] == '"' then !inQuotes else inQuotes);
      var n :| 0 <= n < |text[1..]| && Blank(text[1..][n]);
      assert Blank(text[n + 1]);
    }
  }

  // ----- escaped text in a name -----

  /** Text without quotes, and without blanks outside quotes, is part of the name. */
  lemma {:induction false} NamePart(text: string, line: string, inQuotes: bool)
    requires '"' !in text && (inQuotes || NoBlanks(text))
    ensures ReadName(text + line, inQuotes) == Before(text, ReadName(line, inQuotes))
    decreases |text|
  {
    if text == "" {
      assert text + line == line;
      assert "" + ReadName(line, inQuotes).argument == ReadName(line, inQuotes).argument;
    } else {
      assert (text + line)[1..] == text[1..] + line;
      NamePart(text[1..], line, inQuotes);
      BeforeJoins([text[0]], text[1..], text, ReadName(line, inQuotes));
    }
  }

  lemma PartRest(text: string, line: string)
    requires '"' !in text
    ensures ReadName(text + line, true).rest == ReadName(line, true).rest
  {
    NamePart(text, line, true);
  }

  lemma NameQuote(line: string, inQuotes: bool)
    ensures ReadName("\"" + line, inQuotes) == ReadName(line, !inQuotes)
  {
    assert ("\"" + line)[1..] == line;
  }

  lemma SlashesPlain(n: nat)
    ensures '"' !in Slashes(n) && NoBlanks(Slashes(n))
  {
  }

  /** What an escaped text leaves of the line after it: the quotes as they are,
      or a blank outside quotes that ended the name. */
  lemma {:induction false} NameReads(text: string, slashes: nat, tail: string, inQuotes: bool)
    ensures
      var rest, at := ReadName(Escaped(text, slashes) + tail, inQuotes).rest, BreaksAt(text, inQuotes);
      rest ==
        if at == "" then ReadName(tail, OpenAfter(text, inQuotes)).rest
        else [at[0]] + (Escaped(at[1..], 0) + tail)
    decreases |text|
  {
    hide ReadName;
    if text == "" {
      SlashesPlain(2 * slashes);
      NamePart(Slashes(2 * slashes), tail, inQuotes);
    } else {
      var c := text[0];
      var next := Escaped(text[1..], Held(c, slashes)) + tail;
      EscapedNext(text, slashes, tail);
      if c == '\\' {
        EmittedNothing(slashes, next);
        NameReads(text[1..], slashes + 1, tail, inQuotes);
      } else if c == '"' {
        QuoteReads(slashes, next, inQuotes);
        NameReads(text[1..], 0, tail, !inQuotes);
      } else if Blank(c) && !inQuotes {
        BlankReads(c, slashes, next);
      } else {
        CharReads(c, slashes, next, inQuotes);
        NameReads(text[1..], 0, tail, inQuotes);
      }
    }
  }

  lemma QuoteReads(slashes: nat, next: string, inQuotes: bool)
    ensures ReadName(Emitted('"', slashes) + next, inQuotes).rest == ReadName(next, !inQuotes).rest
  {
    var before := Slashes(2 * slashes) + "\\";
    assert Emitted('"', slashes) + next == before + ("\"" + next);
    SlashesPlain(2 * slashes);
    hide ReadName;
    NamePart(before, "\"" + next, inQuotes);
    NameQuote(next, inQuotes);
  }

  lemma BlankReads(c: char, slashes: nat, next: string)
    requires Blank(c)
    ensures ReadName(Emitted(c, slashes) + next, false).rest == [c] + next
  {
    assert Emitted(c, slashes) + next == Slashes(slashes) + ([c] + next);
    SlashesPlain(slashes);
    NamePart(Slashes(slashes), [c] + next, false);
  }

  lemma CharReads(c: char, slashes: nat, next: string, inQuotes: bool)
    requires c != '\\' && c != '"' && (inQuotes || !Blank(c))
    ensures ReadName(Emitted(c, slashes) + next, inQuotes).rest == ReadName(next, inQuotes).rest
  {
    var before := Slashes(slashes) + [c];
    assert Emitted(c, slashes) + next == before + next;
    SlashesPlain(slashes);
    hide ReadName;
    NamePart(before, next, inQuotes);
  }

  // ----- the arguments after it -----

  /** From a blank on, an escaped text is read as arguments, its quotes inside
      out: the last of them is not the last argument, whatever came before. */
  lemma BrokenNever(at: string, arguments: seq<string>, all: seq<string>, doubling: bool)
    requires at != "" && Blank(at[0]) && |all| > |arguments| && arguments == all[|all| - |arguments|..]
    requires arguments == [] ==> !NoBlanks(all[|all| - 1])
    ensures ReadArguments([at[0]] + (Escaped(at[1..], 0) + ("\"" + Following(arguments))), doubling) != all
  {
    hide *;
    var more, line := at[1..], Following(arguments);
    ReadArgumentsBlank(at[0], Escaped(more, 0) + ("\"" + line), doubling);
    ReadText(more, line, doubling);
    var read := Words(more) + Open(LastWord(more), line, doubling);
    if arguments == [] {
      OpenEnds(LastWord(more), doubling);
      assert read[|read| - 1] == LastWord(more) != all[|all| - 1];
    } else {
      NeverInStep(LastWord(more), arguments, doubling);
      assert arguments[|arguments| - 1] == all[|all| - 1];
    }
  }

  lemma PlainInName(text: string)
    requires Plain(text)
    ensures '"' !in text && NoBlanks(text)
  {
  }

  /** Arguments that a name left open reads on into are not read back. */
  lemma {:induction false} EatenNever(arguments: seq<string>, all: seq<string>, doubling: bool)
    requires |all| >= |arguments| && arguments == all[|all| - |arguments|..] && all != []
    ensures ReadArguments(ReadName(Following(arguments), true).rest, doubling) != all
    decreases |arguments|
  {
    hide *;
    if arguments == [] {
      NothingFollows(doubling);
    } else {
      var text, more := arguments[0], arguments[1..];
      var rest := Following(more);
      assert more == all[|all| - |more|..] && (more == [] ==> all[|all| - 1] == text);
      FollowingNext(arguments);
      SpaceReads(Quoted(text) + rest);
      if Plain(text) {
        PlainQuoted(text);
        PlainInName(text);
        PartRest(text, rest);
        EatenNever(more, all, doubling);
      } else {
        QuotedReads(text, rest);
        var at := BreaksAt(text, false);
        if at != "" {
          BreakIsIn(text, false);
          BrokenNever(at, more, all, doubling);
        } else if OpenAfter(text, false) {
          EndsHere(more);
          ReadFollowing(more, doubling);
        } else {
          EatenNever(more, all, doubling);
        }
      }
    }
  }

  lemma NothingFollows(doubling: bool)
    ensures ReadArguments(ReadName(Following([]), true).rest, doubling) == []
  {
  }

  lemma SpaceReads(line: string)
    ensures ReadName(" " + line, true).rest == ReadName(line, true).rest
  {
    assert (" " + line)[1..] == line;
  }

  lemma PlainQuoted(text: string)
    requires Plain(text)
    ensures Quoted(text) == text
  {
  }

  /** A name outside quotes ends where arguments follow. */
  lemma EndsHere(arguments: seq<string>)
    ensures ReadName(Following(arguments), false) == Parsed("", Following(arguments))
  {
    FollowingEnds(arguments);
  }

  /** A quoted argument in an open name: its quotes are inside out. */
  lemma QuotedReads(text: string, rest: string)
    requires !Plain(text)
    ensures
      var at := BreaksAt(text, false);
      ReadName(Quoted(text) + rest, true).rest ==
        if at == "" then ReadName(rest, !OpenAfter(text, false)).rest
        else [at[0]] + (Escaped(at[1..], 0) + ("\"" + rest))
  {
    hide ReadName, Escaped, BreaksAt, OpenAfter;
    var line := Escaped(text, 0) + ("\"" + rest);
    assert Quoted(text) + rest == "\"" + line;
    NameQuote(line, true);
    NameReads(text, 0, "\"" + rest, false);
    NameQuote(rest, OpenAfter(text, false));
  }

  // ----- the name itself -----

  lemma {:induction false} NoQuoteInName(line: string, inQuotes: bool)
    ensures '"' !in ReadName(line, inQuotes).argument
    decreases |line|
  {
    if line != "" {
      NoQuoteInName(line[1..], if line[0] == '"' then !inQuotes else inQuotes);
    }
  }

  /** A name without quotes is read as CommandLineToArgvW reads it. */
  lemma QuietName(program: string, rest: string)
    requires '"' !in program && Ends(rest)
    ensures ReadName(Quoted(program) + rest, false) == ReadProgram(Quoted(program) + rest)
  {
    if Plain(program) {
      PlainInName(program);
      NamePart(program, rest, false);
      PlainProgram(program, rest);
      assert program + "" == program;
    } else {
      QuietQuoted(program, rest);
    }
  }

  lemma QuietQuoted(program: string, rest: string)
    requires '"' !in program && Ends(rest) && !Plain(program)
    ensures ReadName(Quoted(program) + rest, false) == ReadProgram(Quoted(program) + rest)
  {
    hide *;
    var body := program + Slashes(Trailing(program, 0));
    QuotedProgram(program, rest);
    UnescapedProgram(program, rest);
    QuietBody(program, rest);
    NameQuote(body + ("\"" + rest), false);
    BodyReads(body, rest);
  }

  lemma QuietBody(program: string, rest: string)
    requires '"' !in program && !Plain(program)
    ensures
      var body := program + Slashes(Trailing(program, 0));
      '"' !in body && Quoted(program) + rest == "\"" + (body + ("\"" + rest))
  {
    EscapedWithoutQuote(program, 0);
    assert Slashes(0) + program == program;
    SlashesPlain(Trailing(program, 0));
    hide Escaped, Plain;
    assert Quoted(program) + rest == "\"" + (Escaped(program, 0) + ("\"" + rest));
  }

  lemma BodyReads(body: string, rest: string)
    requires '"' !in body && Ends(rest)
    ensures ReadName(body + ("\"" + rest), true) == Parsed(body, rest)
  {
    hide ReadName;
    NamePart(body, "\"" + rest, true);
    NameQuote(rest, true);
    RestEnds(rest);
    assert body + "" == body;
  }

  lemma RestEnds(rest: string)
    requires Ends(rest)
    ensures ReadName(rest, false) == Parsed("", rest)
  {
  }

  // ----- the whole line -----

  lemma {:induction false} QuietCloses(program: string)
    requires '"' !in program
    ensures BreaksAt(program, true) == "" && OpenAfter(program, true)
  {
    if program != "" {
      QuietCloses(program[1..]);
    }
  }

  /** By the runtime's rules too the name reads back exactly when it is
      representable. The arguments after it read back exactly when its quotes
      close again with no blank outside them, or when there are no arguments and
      no blank is outside quotes. */
  lemma NamesReadBack(arguments: seq<string>, doubling: bool)
    requires arguments != []
    ensures
      var read := ReadLine(CommandLine(arguments), doubling);
      && (read[0] == arguments[0] <==> Representable(arguments[0]))
      && (read == arguments <==> Representable(arguments[0]))
      && (read[1..] == arguments[1..] <==>
            BreaksAt(arguments[0], true) == "" && (OpenAfter(arguments[0], true) || |arguments| == 1))
  {
    hide *;
    var program, more := arguments[0], arguments[1..];
    var rest := Following(more);
    LineIsProgramThenRest(arguments);
    FollowingEnds(more);
    ReadFollowing(more, doubling);
    NameReadsBack(program, rest);
    LineParts(CommandLine(arguments), doubling);
    RestReadsBack(program, more, doubling);
    assert arguments == [program] + more;
    if Representable(program) {
      RepresentableCloses(program);
    }
  }

  lemma LineParts(line: string, doubling: bool)
    ensures
      var name, read := ReadName(line, false), ReadLine(line, doubling);
      read == [name.argument] + ReadArguments(name.rest, doubling)
  {
  }

  lemma RepresentableCloses(program: string)
    requires Representable(program)
    ensures BreaksAt(program, true) == "" && OpenAfter(program, true)
  {
    if Plain(program) {
      PlainInName(program);
    }
    QuietCloses(program);
  }

  lemma NameReadsBack(program: string, rest: string)
    requires Ends(rest)
    ensures ReadName(Quoted(program) + rest, false).argument == program <==> Representable(program)
  {
    hide ReadName, ReadProgram, Quoted;
    ProgramReadsBack(program, rest);
    if '"' in program {
      NoQuoteInName(Quoted(program) + rest, false);
      NotPlain(program);
    } else {
      QuietName(program, rest);
    }
  }

  lemma RestReadsBack(program: string, more: seq<string>, doubling: bool)
    ensures ReadArguments(ReadName(Quoted(program) + Following(more), false).rest, doubling) == more <==>
      BreaksAt(program, true) == "" && (OpenAfter(program, true) || more == [])
  {
    hide *;
    var rest := Following(more);
    FollowingEnds(more);
    ReadFollowing(more, doubling);
    if '"' !in program {
      RestWithoutQuote(program, rest);
    } else {
      NotPlain(program);
      OpenedReads(program, rest);
      var at := BreaksAt(program, true);
      if at != "" {
        BrokenAtOnce(at, more, doubling);
      } else if OpenAfter(program, true) {
        EndsHere(more);
      } else if more == [] {
        NothingFollows(doubling);
      } else {
        assert more[|more| - |more|..] == more;
        EatenNever(more, more, doubling);
      }
    }
  }

  lemma RestWithoutQuote(program: string, rest: string)
    requires '"' !in program && Ends(rest)
    ensures ReadName(Quoted(program) + rest, false).rest == rest
    ensures BreaksAt(program, true) == "" && OpenAfter(program, true)
  {
    QuietName(program, rest);
    ProgramRest(program, rest);
    QuietCloses(program);
  }

  /** The quoted name, read from its opening quote on. */
  lemma OpenedReads(program: string, rest: string)
    requires !Plain(program)
    ensures
      var at := BreaksAt(program, true);
      ReadName(Quoted(program) + rest, false).rest ==
        if at == "" then ReadName(rest, !OpenAfter(program, true)).rest
        else [at[0]] + (Escaped(at[1..], 0) + ("\"" + rest))
  {
    hide ReadName, Escaped, BreaksAt, OpenAfter;
    var line := Escaped(program, 0) + ("\"" + rest);
    assert Quoted(program) + rest == "\"" + line;
    NameQuote(line, false);
    NameReads(program, 0, "\"" + rest, true);
    NameQuote(rest, OpenAfter(program, true));
  }

  /** A name that a blank ended early spills into the arguments. */
  lemma BrokenAtOnce(at: string, more: seq<string>, doubling: bool)
    requires at != "" && Blank(at[0])
    ensures ReadArguments([at[0]] + (Escaped(at[1..], 0) + ("\"" + Following(more))), doubling) != more
  {
    hide *;
    ReadArgumentsBlank(at[0], Escaped(at[1..], 0) + ("\"" + Following(more)), doubling);
    ReadText(at[1..], Following(more), doubling);
    if more != [] {
      NeverInStep(LastWord(at[1..]), more, doubling);
    }
  }
}
