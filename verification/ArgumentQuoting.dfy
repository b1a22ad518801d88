/** Writing a Windows command line so that the program it starts reads back the
    same arguments. */
module ArgumentQuoting {

  /** What a C string can hold. */
  type Argument = s: string | '\0' !in s witness ""

  predicate PlainCharacter(c: char) {
    'a' <= c <= 'z' || 'A' <= c <= 'Z' || '0' <= c <= '9' || c in "_+-./:\\@"
  }

  predicate Plain(value: string) {
    value != "" && forall i :: 0 <= i < |value| ==> PlainCharacter(value[i])
  }

  function Slashes(n: nat): (s: string)
    ensures |s| == n && forall i :: 0 <= i < n ==> s[i] == '\\'
  {
    if n == 0 then "" else "\\" + Slashes(n - 1)
  }

  /** What one character writes when `slashes` backslashes are held back
      before it, and how many are held back after it. */
  function Emitted(c: char, slashes: nat): string {
    if c == '\\' then "" else if c == '"' then Slashes(2 * slashes) + "\\\"" else Slashes(slashes) + [c]
  }

  function Held(c: char, slashes: nat): nat {
    if c == '\\' then slashes + 1 else 0
  }

  function Escaped(rest: string, slashes: nat): string {
    if rest == "" then Slashes(2 * slashes)
    else Emitted(rest[0], slashes) + Escaped(rest[1..], Held(rest[0], slashes))
  }

  function Quoted(value: string): string {
    if Plain(value) then value else "\"" + Escaped(value, 0) + "\""
  }

  function CommandLine(arguments: seq<string>): string {
    if arguments == [] then ""
    else if |arguments| == 1 then Quoted(arguments[0])
    else CommandLine(arguments[..|arguments| - 1]) + " " + Quoted(arguments[|arguments| - 1])
  }

  // ----- as the supervisor writes it -----

  method IsPlain(value: Argument) returns (plain: bool)
    ensures plain <==> Plain(value)
    ensures plain <==> value != "" && forall i :: 0 <= i < |value| ==>
      'a' <= value[i] <= 'z' || 'A' <= value[i] <= 'Z' || '0' <= value[i] <= '9' || value[i] in "_+-./:\\@"
  {
    if value == "" { return false; }
    for cursor := 0 to |value|
      invariant forall i :: 0 <= i < cursor ==> PlainCharacter(value[i])
    {
      if !PlainCharacter(value[cursor]) { return false; }
    }
    plain := true;
  }

  lemma {:induction false} EscapedFits(rest: string, slashes: nat)
    ensures |Escaped(rest, slashes)| <= 2 * (|rest| + slashes)
  {
    if rest != "" {
      EscapedFits(rest[1..], Held(rest[0], slashes));
    }
  }

  method WriteSlashes(quoted: array<char>, start: nat, count: nat)
    requires start + count <= quoted.Length
    modifies quoted
    ensures quoted[..start + count] == old(quoted[..start]) + Slashes(count)
  {
    for index := 0 to count
      invariant quoted[..start] == old(quoted[..start])
      invariant forall i :: start <= i < start + index ==> quoted[i] == '\\'
    {
      quoted[start + index] := '\\';
    }
  }

  method WriteNext(quoted: array<char>, out: nat, character: char, slashes: nat) returns (end: nat)
    requires out + |Emitted(character, slashes)| <= quoted.Length
    modifies quoted
    ensures end == out + |Emitted(character, slashes)|
    ensures quoted[..end] == old(quoted[..out]) + Emitted(character, slashes)
  {
    hide Slashes;
    end := out;
    ghost var start := quoted[..out];
    if character == '\\' { return; }
    if character == '"' {
      WriteSlashes(quoted, end, 2 * slashes);
      end := end + 2 * slashes;
      ghost var before := quoted[..end];
      quoted[end], quoted[end + 1] := '\\', '"';
      end := end + 2;
      assert quoted[..end] == before + "\\\"" == start + (Slashes(2 * slashes) + "\\\"");
    } else {
      WriteSlashes(quoted, end, slashes);
      end := end + slashes;
      ghost var before := quoted[..end];
      quoted[end] := character;
      end := end + 1;
      assert quoted[..end] == before + [character] == start + (Slashes(slashes) + [character]);
    }
  }

  /** What is written, and what is still to come, make the whole argument. */
  ghost predicate Writing(value: string, written: string, cursor: nat, slashes: nat) {
    cursor <= |value| && written + Escaped(value[cursor..], slashes) == "\"" + Escaped(value, 0)
  }

  lemma WritingNext(value: string, written: string, cursor: nat, slashes: nat)
    requires cursor < |value| && Writing(value, written, cursor, slashes)
    ensures Writing(value, written + Emitted(value[cursor], slashes), cursor + 1, Held(value[cursor], slashes))
    ensures |written| + |Emitted(value[cursor], slashes)| <= 2 * |value| + 1
  {
    var rest := value[cursor..];
    assert rest[1..] == value[cursor + 1..];
    var next := Escaped(rest[1..], Held(rest[0], slashes));
    assert written + (Emitted(rest[0], slashes) + next) == written + Emitted(rest[0], slashes) + next;
    EscapedFits(value, 0);
  }

  /** `quote_argument`: no write leaves the 2 * length + 3 characters. */
  method QuoteArgument(value: Argument) returns (quoted: array<char>, length: nat)
    ensures length < quoted.Length && quoted[length] == '\0' && quoted[..length] == Quoted(value)
    ensures fresh(quoted) && quoted.Length <= 2 * |value| + 3
  {
    var plain := IsPlain(value);
    if plain {
      quoted := new char[|value| + 1](i => if 0 <= i < |value| then value[i] else '\0');
      length := |value|;
      assert quoted[..length] == value;
      return;
    }
    quoted := new char[2 * |value| + 3](_ => '\0');
    quoted[0] := '"';
    var out, slashes: nat := 1, 0;
    assert quoted[..1] == "\"" && value[0..] == value;
    for cursor := 0 to |value|
      invariant 1 <= out <= 2 * |value| + 1 && Writing(value, quoted[..out], cursor, slashes)
    {
      WritingNext(value, quoted[..out], cursor, slashes);
      out := WriteNext(quoted, out, value[cursor], slashes);
      slashes := Held(value[cursor], slashes);
    }
    EscapedFits(value, 0);
    ghost var written := quoted[..out];
    assert written + Slashes(2 * slashes) == "\"" + Escaped(value, 0) by {
      assert value[|value|..] == "";
    }
    WriteSlashes(quoted, out, 2 * slashes);
    out := out + 2 * slashes;
    ghost var body := quoted[..out];
    quoted[out] := '"';
    out := out + 1;
    assert quoted[..out] == body + "\"";
    quoted[out] := '\0';
    length := out;
  }

  function Capacity(parts: seq<string>): nat {
    if parts == [] then 1 else Capacity(parts[..|parts| - 1]) + |parts[|parts| - 1]| + 1
  }

  function QuotedAll(arguments: seq<string>): (parts: seq<string>)
    ensures |parts| == |arguments| && forall i :: 0 <= i < |parts| ==> parts[i] == Quoted(arguments[i])
  {
    seq(|arguments|, i requires 0 <= i < |arguments| => Quoted(arguments[i]))
  }

  /** The parts and their separators need no more than the summed capacity. */
  lemma {:induction false} CapacityIsEnough(arguments: seq<string>)
    ensures |CommandLine(arguments)| + (if arguments == [] then 1 else 2) == Capacity(QuotedAll(arguments))
  {
    if |arguments| == 1 {
      assert QuotedAll(arguments)[..0] == [];
    } else if arguments != [] {
      var first := arguments[..|arguments| - 1];
      CapacityIsEnough(first);
      assert QuotedAll(arguments)[..|arguments| - 1] == QuotedAll(first);
    }
  }

  /** `wcscat_s`: the caller must leave room for the text and its terminator. */
  method Append(line: array<char>, start: nat, text: string)
    requires start + |text| < line.Length
    modifies line
    ensures line[..start + |text|] == old(line[..start]) + text && line[start + |text|] == '\0'
  {
    for i := 0 to |text|
      invariant line[..start] == old(line[..start])
      invariant line[start..start + i] == text[..i]
    {
      line[start + i] := text[i];
      assert line[start..start + i + 1] == text[..i + 1];
    }
    line[start + |text|] := '\0';
    assert line[..start + |text|] == line[..start] + line[start..start + |text|];
  }

  lemma PartAdds(arguments: seq<string>, index: nat)
    requires index < |arguments|
    ensures QuotedAll(arguments[..index + 1]) == QuotedAll(arguments[..index]) + [Quoted(arguments[index])]
    ensures Capacity(QuotedAll(arguments[..index + 1]))
         == Capacity(QuotedAll(arguments[..index])) + |Quoted(arguments[index])| + 1
  {
    hide Quoted;
    var parts := QuotedAll(arguments[..index]) + [Quoted(arguments[index])];
    assert QuotedAll(arguments[..index + 1]) == parts;
    assert parts[..|parts| - 1] == QuotedAll(arguments[..index]);
  }

  method QuoteAll(arguments: seq<Argument>) returns (parts: seq<string>, capacity: nat)
    ensures parts == QuotedAll(arguments) && capacity == Capacity(parts)
  {
    parts, capacity := [], 1;
    assert QuotedAll(arguments[..0]) == [];
    assert Capacity([]) == 1;
    hide *;
    for index := 0 to |arguments|
      invariant parts == QuotedAll(arguments[..index]) && capacity == Capacity(parts)
    {
      var quoted, size := QuoteArgument(arguments[index]);
      var part := quoted[..size];
      PartAdds(arguments, index);
      parts := parts + [part];
      capacity := capacity + |part| + 1;
    }
    assert arguments[..|arguments|] == arguments;
  }

  function Separator(index: nat): string {
    if index > 0 then " " else ""
  }

  method AppendPart(line: array<char>, start: nat, index: nat, part: string) returns (end: nat)
    requires start + |Separator(index)| + |part| < line.Length
    modifies line
    ensures end == start + |Separator(index)| + |part| && line[end] == '\0'
    ensures line[..end] == old(line[..start]) + Separator(index) + part
  {
    end := start;
    if index > 0 {
      Append(line, end, " ");
      end := end + 1;
    }
    assert line[..end] == old(line[..start]) + Separator(index);
    Append(line, end, part);
    end := end + |part|;
  }

  /** `command_line`: every append leaves room for the terminator. */
  method WriteCommandLine(arguments: seq<Argument>) returns (line: array<char>, length: nat)
    ensures length < line.Length && line[length] == '\0' && line[..length] == CommandLine(arguments)
  {
    var parts, capacity := QuoteAll(arguments);
    CapacityIsEnough(arguments);
    line := new char[capacity](_ => '\0');
    length := 0;
    assert line[..0] == CommandLine(arguments[..0]);
    assert |CommandLine(arguments)| < capacity;
    hide *;
    for index := 0 to |arguments|
      invariant length < line.Length && line[length] == '\0'
      invariant line[..length] == CommandLine(arguments[..index])
    {
      LineGrows(arguments, index);
      assert parts[index] == Quoted(arguments[index]);
      assert |CommandLine(arguments[..index])| == length;
      length := AppendPart(line, length, index, parts[index]);
    }
    assert arguments[..|arguments|] == arguments;
  }

  lemma LineGrows(arguments: seq<string>, index: nat)
    requires index < |arguments|
    ensures CommandLine(arguments[..index + 1])
         == CommandLine(arguments[..index]) + Separator(index) + Quoted(arguments[index])
    ensures |CommandLine(arguments[..index + 1])| <= |CommandLine(arguments)|
    decreases |arguments| - index
  {
    assert arguments[..index + 1][..index] == arguments[..index];
    if index + 1 < |arguments| {
      LineGrows(arguments, index + 1);
    } else {
      assert arguments[..index + 1] == arguments;
    }
  }

  // ----- as the started program reads it -----

  predicate Blank(c: char) {
    c == ' ' || c == '\t'
  }

  datatype Parsed = Parsed(argument: string, rest: string)

  /** One argument, by the backslash and quote rules of CommandLineToArgvW and
      the C runtime: 2n backslashes before a quote are n of them and a quote
      that opens or closes, 2n+1 are n of them and the quote itself. With
      `doubling`, two quotes inside quotes are one quote too. */
  function Read(line: string, slashes: nat, inQuotes: bool, doubling: bool): Parsed
    decreases |line|
  {
    if line == "" then Parsed(Slashes(slashes), "")
    else if line[0] == '\\' then Read(line[1..], slashes + 1, inQuotes, doubling)
    else if line[0] == '"' then
      if slashes % 2 == 1 then Before(Slashes(slashes / 2) + "\"", Read(line[1..], 0, inQuotes, doubling))
      else if inQuotes && doubling && |line| > 1 && line[1] == '"' then
        Before(Slashes(slashes / 2) + "\"", Read(line[2..], 0, inQuotes, doubling))
      else Before(Slashes(slashes / 2), Read(line[1..], 0, !inQuotes, doubling))
    else if Blank(line[0]) && !inQuotes then Parsed(Slashes(slashes), line)
    else Before(Slashes(slashes) + [line[0]], Read(line[1..], 0, inQuotes, doubling))
  }

  function Before(text: string, parsed: Parsed): Parsed {
    Parsed(text + parsed.argument, parsed.rest)
  }

  function SkipBlanks(line: string): (rest: string)
    ensures |rest| <= |line| && (rest != "" ==> !Blank(rest[0]))
  {
    if line != "" && Blank(line[0]) then SkipBlanks(line[1..]) else line
  }

  lemma {:induction false} ReadShrinks(line: string, slashes: nat, inQuotes: bool, doubling: bool)
    ensures |Read(line, slashes, inQuotes, doubling).rest| <= |line|
    ensures line != "" && (inQuotes || !Blank(line[0])) ==> |Read(line, slashes, inQuotes, doubling).rest| < |line|
    decreases |line|
  {
    if line == "" {
    } else if line[0] == '\\' {
      ReadShrinks(line[1..], slashes + 1, inQuotes, doubling);
    } else if line[0] == '"' && slashes % 2 == 0 && inQuotes && doubling && |line| > 1 && line[1] == '"' {
      ReadShrinks(line[2..], 0, inQuotes, doubling);
    } else if line[0] == '"' {
      ReadShrinks(line[1..], 0, if slashes % 2 == 1 then inQuotes else !inQuotes, doubling);
    } else {
      ReadShrinks(line[1..], 0, inQuotes, doubling);
    }
  }

  /** The arguments after the program name. */
  function ReadArguments(line: string, doubling: bool): seq<string>
    decreases |line|
  {
    var rest := SkipBlanks(line);
    if rest == "" then []
    else
      ReadShrinks(rest, 0, false, doubling);
      var parsed := Read(rest, 0, false, doubling);
      [parsed.argument] + ReadArguments(parsed.rest, doubling)
  }

  /** The rules for backslashes, quotes and blanks, each on its own. */
  lemma ReadRules(n: nat, c: char, rest: string, inQuotes: bool, doubling: bool)
    requires c != '"' && c != '\\'
    ensures Read(Slashes(2 * n + 1) + ("\"" + rest), 0, inQuotes, doubling)
         == Before(Slashes(n) + "\"", Read(rest, 0, inQuotes, doubling))
    ensures !inQuotes || !doubling || rest == "" || rest[0] != '"' ==>
      Read(Slashes(2 * n) + ("\"" + rest), 0, inQuotes, doubling)
        == Before(Slashes(n), Read(rest, 0, !inQuotes, doubling))
    ensures Read(Slashes(2 * n) + ("\"\"" + rest), 0, true, true)
         == Before(Slashes(n) + "\"", Read(rest, 0, true, true))
    ensures Read(Slashes(n) + ([c] + rest), 0, inQuotes, doubling) ==
      if !inQuotes && (c == ' ' || c == '\t') then Parsed(Slashes(n), [c] + rest)
      else Before(Slashes(n) + [c], Read(rest, 0, inQuotes, doubling))
    ensures Read(Slashes(n), 0, inQuotes, doubling) == Parsed(Slashes(n), "")
  {
    hide Before;
    ReadSlashes(2 * n + 1, "\"" + rest, 0, inQuotes, doubling);
    ReadSlashes(2 * n, "\"" + rest, 0, inQuotes, doubling);
    ReadSlashes(2 * n, "\"\"" + rest, 0, true, true);
    ReadSlashes(n, [c] + rest, 0, inQuotes, doubling);
    ReadSlashes(n, "", 0, inQuotes, doubling);
    assert ("\"\"" + rest)[2..] == rest;
    assert Slashes(n) + "" == Slashes(n);
  }

  /** Arguments stand apart by spaces and tabs. */
  lemma SkipsBlanks(c: char, rest: string)
    ensures SkipBlanks([c] + rest) == if c == ' ' || c == '\t' then SkipBlanks(rest) else [c] + rest
    ensures SkipBlanks("") == ""
  {
    assert ([c] + rest)[1..] == rest;
  }

  /** The program name has rules of its own, here those of CommandLineToArgvW:
      quotes delimit it, and nothing in it is escaped. */
  function UntilQuote(line: string): Parsed {
    if line == "" then Parsed("", "")
    else if line[0] == '"' then Parsed("", line[1..])
    else Before([line[0]], UntilQuote(line[1..]))
  }

  function UntilBlank(line: string): Parsed {
    if line == "" || Blank(line[0]) then Parsed("", line) else Before([line[0]], UntilBlank(line[1..]))
  }

  function ReadProgram(line: string): Parsed {
    if line != "" && line[0] == '"' then UntilQuote(line[1..]) else UntilBlank(line)
  }

  /** A name in quotes that no quote ends runs to the end of the line. */
  lemma {:induction false} UnendedName(name: string)
    requires '"' !in name
    ensures UntilQuote(name) == Parsed(name, "")
  {
    if name != "" {
      UnendedName(name[1..]);
      assert [name[0]] + name[1..] == name;
    }
  }

  /** A name that is not in quotes ends before a space or a tab. */
  lemma {:induction false} BareName(name: string, rest: string)
    requires ' ' !in name && '\t' !in name && (rest == "" || rest[0] == ' ' || rest[0] == '\t')
    ensures UntilBlank(name + rest) == Parsed(name, rest)
  {
    if name == "" {
      assert name + rest == rest;
    } else {
      BareName(name[1..], rest);
      assert (name + rest)[1..] == name[1..] + rest;
      assert [name[0]] + name[1..] == name;
    }
  }

  function ReadAll(line: string, doubling: bool): seq<string> {
    var program := ReadProgram(line);
    [program.argument] + ReadArguments(program.rest, doubling)
  }

  // ----- what is written is read back -----

  predicate Ends(line: string) {
    line == "" || line[0] == ' '
  }

  lemma {:induction false} ReadSlashes(n: nat, line: string, slashes: nat, inQuotes: bool, doubling: bool)
    ensures Read(Slashes(n) + line, slashes, inQuotes, doubling) == Read(line, slashes + n, inQuotes, doubling)
    decreases n
  {
    if n == 0 {
      assert Slashes(0) + line == line;
    } else {
      assert (Slashes(n) + line)[1..] == Slashes(n - 1) + line;
      ReadSlashes(n - 1, line, slashes + 1, inQuotes, doubling);
    }
  }

  lemma SlashesJoin(m: nat, n: nat)
    ensures Slashes(m) + Slashes(n) == Slashes(m + n)
  {}

  lemma SlashesMore(n: nat, rest: string)
    ensures Slashes(n + 1) + rest == Slashes(n) + "\\" + rest
  {
    SlashesJoin(n, 1);
    assert Slashes(1) == "\\";
  }

  lemma ReadQuote(n: nat, rest: string, doubling: bool)
    requires rest == "" || rest[0] != '"'
    ensures Read("\"" + rest, 2 * n, true, doubling) == Before(Slashes(n), Read(rest, 0, false, doubling))
  {
    assert ("\"" + rest)[1..] == rest;
    assert (2 * n) / 2 == n && (2 * n) % 2 == 0;
  }

  lemma ReadEscapedQuote(n: nat, rest: string, inQuotes: bool, doubling: bool)
    ensures Read("\"" + rest, 2 * n + 1, inQuotes, doubling)
         == Before(Slashes(n) + "\"", Read(rest, 0, inQuotes, doubling))
  {
    assert ("\"" + rest)[1..] == rest;
    assert (2 * n + 1) / 2 == n && (2 * n + 1) % 2 == 1;
  }

  lemma ReadOther(c: char, n: nat, rest: string, inQuotes: bool, doubling: bool)
    requires c != '"' && c != '\\' && (inQuotes || !Blank(c))
    ensures Read([c] + rest, n, inQuotes, doubling) == Before(Slashes(n) + [c], Read(rest, 0, inQuotes, doubling))
  {
    assert ([c] + rest)[1..] == rest;
  }

  lemma ReadEnd(rest: string, doubling: bool)
    requires Ends(rest)
    ensures Read(rest, 0, false, doubling) == Parsed("", rest)
  {}

  lemma EscapedNext(value: string, slashes: nat, tail: string)
    requires value != ""
    ensures Escaped(value, slashes) + tail == Emitted(value[0], slashes)
      + (Escaped(value[1..], Held(value[0], slashes)) + tail)
  {}

  /** What was held back and the character make up the argument again. */
  lemma HeldJoins(value: string, slashes: nat)
    requires value != ""
    ensures (if value[0] == '\\' then "" else Slashes(slashes) + [value[0]])
      + (Slashes(Held(value[0], slashes)) + value[1..])
         == Slashes(slashes) + value
  {
    if value[0] == '\\' {
      SlashesMore(slashes, value[1..]);
    }
    assert value == [value[0]] + value[1..];
  }

  /** Inside quotes, the escaped text reads back as itself and ends at the
      closing quote. */
  lemma {:induction false} ReadEscaped(value: string, slashes: nat, rest: string, doubling: bool)
    requires Ends(rest)
    ensures Read(Escaped(value, slashes) + ("\"" + rest), 0, true, doubling) == Parsed(Slashes(slashes) + value, rest)
    decreases |value|
  {
    var tail := "\"" + rest;
    if value == "" {
      assert Escaped(value, slashes) == Slashes(2 * slashes);
      ReadSlashes(2 * slashes, tail, 0, true, doubling);
      ReadQuote(slashes, rest, doubling);
      ReadEnd(rest, doubling);
      assert Slashes(slashes) + "" == Slashes(slashes) + value;
    } else {
      var c := value[0];
      var next := Escaped(value[1..], Held(c, slashes)) + tail;
      EscapedNext(value, slashes, tail);
      ReadEscaped(value[1..], Held(c, slashes), rest, doubling);
      HeldJoins(value, slashes);
      if c == '\\' {
        assert Emitted(c, slashes) == "";
        assert "" + next == next && "" + (Slashes(Held(c, slashes)) + value[1..])
          == Slashes(Held(c, slashes)) + value[1..];
      } else {
        ReadEmitted(c, slashes, next, true, doubling);
      }
    }
  }

  lemma ReadEmitted(c: char, slashes: nat, next: string, inQuotes: bool, doubling: bool)
    requires c != '\\' && (inQuotes || !Blank(c))
    ensures Read(Emitted(c, slashes) + next, 0, inQuotes, doubling)
         == Before(Slashes(slashes) + [c], Read(next, 0, inQuotes, doubling))
  {
    if c == '"' {
      SlashesMore(2 * slashes, "\"" + next);
      assert Emitted(c, slashes) + next == Slashes(2 * slashes + 1) + ("\"" + next);
      ReadSlashes(2 * slashes + 1, "\"" + next, 0, inQuotes, doubling);
      ReadEscapedQuote(slashes, next, inQuotes, doubling);
    } else {
      assert Emitted(c, slashes) + next == Slashes(slashes) + ([c] + next);
      ReadSlashes(slashes, [c] + next, 0, inQuotes, doubling);
      ReadOther(c, slashes, next, inQuotes, doubling);
    }
  }

  lemma ReadPlainNext(value: string, slashes: nat, rest: string, doubling: bool)
    requires value != "" && PlainCharacter(value[0])
    ensures Read(value + rest, slashes, false, doubling) ==
            var next := Read(value[1..] + rest, Held(value[0], slashes), false, doubling);
            if value[0] == '\\' then next else Before(Slashes(slashes) + [value[0]], next)
  {
    assert (value + rest)[1..] == value[1..] + rest;
  }

  ghost predicate AllPlain(value: string) {
    forall i :: 0 <= i < |value| ==> PlainCharacter(value[i])
  }

  /** A bare argument reads back as itself and ends at the separator. */
  lemma {:induction false} ReadPlain(value: string, slashes: nat, rest: string, doubling: bool)
    requires Ends(rest) && AllPlain(value)
    ensures Read(value + rest, slashes, false, doubling) == Parsed(Slashes(slashes) + value, rest)
    decreases |value|
  {
    if value == "" {
      assert value + rest == rest && Slashes(slashes) + value == Slashes(slashes);
    } else {
      assert PlainCharacter(value[0]) && AllPlain(value[1..]);
      ReadPlainNext(value, slashes, rest, doubling);
      ReadPlain(value[1..], Held(value[0], slashes), rest, doubling);
      HeldJoins(value, slashes);
      if value[0] == '\\' {
        assert "" + (Slashes(Held(value[0], slashes)) + value[1..]) == Slashes(Held(value[0], slashes)) + value[1..];
      } else {
      }
    }
  }

  lemma ReadOpening(line: string, doubling: bool)
    ensures Read("\"" + line, 0, false, doubling) == Before(Slashes(0), Read(line, 0, true, doubling))
  {
    assert ("\"" + line)[1..] == line;
  }

  lemma ReadQuoted(value: string, rest: string, doubling: bool)
    requires Ends(rest)
    ensures Read(Quoted(value) + rest, 0, false, doubling) == Parsed(value, rest)
    ensures Quoted(value) != "" && !Blank(Quoted(value)[0])
  {
    hide Read;
    assert Plain(value) ==> AllPlain(value) && PlainCharacter(value[0]);
    assert Slashes(0) + value == value;
    if Plain(value) {
      ReadPlain(value, 0, rest, doubling);
      assert value != "" && !Blank(value[0]);
    } else {
      var line := Escaped(value, 0) + ("\"" + rest);
      assert Quoted(value) + rest == "\"" + line;
      ReadEscaped(value, 0, rest, doubling);
      ReadOpening(line, doubling);
    }
  }

  /** A line of arguments, each after a space, reads back as those arguments. */
  function Following(arguments: seq<string>): string {
    if arguments == [] then "" else " " + (Quoted(arguments[0]) + Following(arguments[1..]))
  }

  lemma SkipSpace(line: string)
    requires line != "" && !Blank(line[0])
    ensures SkipBlanks(" " + line) == line
  {
    assert (" " + line)[1..] == line;
  }

  lemma ReadNext(line: string, rest: string, parsed: Parsed, doubling: bool)
    requires SkipBlanks(line) == rest != "" && Read(rest, 0, false, doubling) == parsed
    ensures ReadArguments(line, doubling) == [parsed.argument] + ReadArguments(parsed.rest, doubling)
  {
    hide Read, SkipBlanks;
  }

  lemma FollowingEnds(arguments: seq<string>)
    ensures Ends(Following(arguments))
  {}

  lemma FollowingNext(arguments: seq<string>)
    requires arguments != []
    ensures Following(arguments) == " " + (Quoted(arguments[0]) + Following(arguments[1..]))
  {}

  lemma {:induction false} ReadFollowing(arguments: seq<string>, doubling: bool)
    ensures ReadArguments(Following(arguments), doubling) == arguments
  {
    if arguments != [] {
      hide *;
      var rest := Following(arguments[1..]);
      var line := Quoted(arguments[0]) + rest;
      FollowingEnds(arguments[1..]);
      ReadFollowing(arguments[1..], doubling);
      ReadQuoted(arguments[0], rest, doubling);
      assert line[0] == Quoted(arguments[0])[0];
      SkipSpace(line);
      FollowingNext(arguments);
      ReadNext(" " + line, line, Parsed(arguments[0], rest), doubling);
      assert arguments == [arguments[0]] + arguments[1..];
    }
  }

  lemma {:induction false} LineIsProgramThenRest(arguments: seq<string>)
    requires arguments != []
    ensures CommandLine(arguments) == Quoted(arguments[0]) + Following(arguments[1..])
  {
    hide Quoted;
    if |arguments| == 1 {
      assert Following(arguments[1..]) == "";
    } else {
      var first, last := arguments[..|arguments| - 1], arguments[|arguments| - 1];
      LineIsProgramThenRest(first);
      FollowingAdds(first[1..], last);
      assert first[1..] + [last] == arguments[1..];
      var head, middle, tail := Quoted(arguments[0]), Following(first[1..]), " " + Quoted(last);
      assert CommandLine(arguments) == CommandLine(first) + " " + Quoted(last);
      assert head + middle + " " + Quoted(last) == head + (middle + tail);
    }
  }

  lemma FollowingOne(last: string)
    ensures Following([last]) == " " + Quoted(last)
  {
    hide Quoted;
    assert [last][1..] == [] && Quoted(last) + "" == Quoted(last);
  }

  lemma {:induction false} FollowingAdds(arguments: seq<string>, last: string)
    ensures Following(arguments + [last]) == Following(arguments) + (" " + Quoted(last))
  {
    hide Quoted;
    if arguments == [] {
      FollowingOne(last);
      assert [] + [last] == [last] && "" + (" " + Quoted(last)) == " " + Quoted(last);
      assert Following([]) == "";
    } else {
      FollowingAdds(arguments[1..], last);
      assert (arguments + [last])[1..] == arguments[1..] + [last];
      FollowingNext(arguments);
      FollowingNext(arguments + [last]);
      var head, middle, tail := Quoted(arguments[0]), Following(arguments[1..]), " " + Quoted(last);
      assert " " + (head + (middle + tail)) == " " + (head + middle) + tail;
    }
  }

  /** A program name the rules can give back: it needs no quoting, or it holds
      no quote and does not end in a backslash. */
  predicate Representable(program: string) {
    Plain(program) || ('"' !in program && !(program != "" && program[|program| - 1] == '\\'))
  }

  /** The program name reads back exactly when it is representable. */
  lemma ProgramReadsBack(program: string, rest: string)
    requires Ends(rest)
    ensures Representable(program) ==> ReadProgram(Quoted(program) + rest) == Parsed(program, rest)
    ensures !Representable(program) ==> ReadProgram(Quoted(program) + rest).argument != program
  {
    if Plain(program) {
      PlainProgram(program, rest);
    } else {
      var line := Escaped(program, 0) + ("\"" + rest);
      assert ReadProgram(Quoted(program) + rest) == UntilQuote(line) by { QuotedProgram(program, rest); }
      if '"' in program {
        NoQuoteRead(line);
      } else {
        UnescapedProgram(program, rest);
      }
    }
  }

  lemma PlainProgram(program: string, rest: string)
    requires Ends(rest) && Plain(program)
    ensures ReadProgram(Quoted(program) + rest) == Parsed(program, rest)
  {
    assert PlainCharacter(program[0]);
    assert (program + rest)[0] == program[0];
    BlankEnds(program, rest);
  }

  lemma QuotedProgram(program: string, rest: string)
    requires !Plain(program)
    ensures ReadProgram(Quoted(program) + rest) == UntilQuote(Escaped(program, 0) + ("\"" + rest))
  {
    hide Escaped, Plain, UntilQuote;
    var line := Quoted(program) + rest;
    assert line == "\"" + (Escaped(program, 0) + ("\"" + rest));
    assert line[1..] == Escaped(program, 0) + ("\"" + rest);
  }

  /** Without quotes to escape, what comes back is the name with the backslashes
      at its end doubled. */
  lemma UnescapedProgram(program: string, rest: string)
    requires '"' !in program
    ensures UntilQuote(Escaped(program, 0) + ("\"" + rest)) == Parsed(program + Slashes(Trailing(program, 0)), rest)
    ensures program + Slashes(Trailing(program, 0)) == program
      <==> !(program != "" && program[|program| - 1] == '\\')
  {
    EscapedWithoutQuote(program, 0);
    assert Slashes(0) + program == program;
    TrailingIs(program, 0);
    var tail := Slashes(Trailing(program, 0));
    assert '"' !in tail;
    QuoteEnds(program + tail, rest);
  }

  lemma {:induction false} BlankEnds(text: string, rest: string)
    requires Ends(rest) && forall i :: 0 <= i < |text| ==> PlainCharacter(text[i])
    ensures UntilBlank(text + rest) == Parsed(text, rest)
  {
    if text == "" {
      assert text + rest == rest;
    } else {
      assert (text + rest)[1..] == text[1..] + rest;
      BlankEnds(text[1..], rest);
    }
  }

  lemma {:induction false} QuoteEnds(text: string, rest: string)
    requires '"' !in text
    ensures UntilQuote(text + ("\"" + rest)) == Parsed(text, rest)
  {
    if text == "" {
      assert text + ("\"" + rest) == "\"" + rest;
    } else {
      assert (text + ("\"" + rest))[1..] == text[1..] + ("\"" + rest);
      QuoteEnds(text[1..], rest);
    }
  }

  lemma {:induction false} NoQuoteRead(line: string)
    ensures '"' !in UntilQuote(line).argument
  {
    if line != "" && line[0] != '"' {
      NoQuoteRead(line[1..]);
    }
  }

  /** How many backslashes the text ends in, counting those held back before it. */
  function Trailing(text: string, slashes: nat): nat {
    if text == "" then slashes else Trailing(text[1..], Held(text[0], slashes))
  }

  lemma {:induction false} TrailingIs(text: string, slashes: nat)
    ensures Trailing(text, slashes) > 0 <==> if text == "" then slashes > 0 else text[|text| - 1] == '\\'
    decreases |text|
  {
    if text != "" {
      TrailingIs(text[1..], Held(text[0], slashes));
    }
  }

  lemma DoubledSlashes(n: nat)
    ensures Slashes(2 * n) == Slashes(n) + "" + Slashes(n)
  {
    SlashesJoin(n, n);
  }

  /** Without quotes in it, escaping only doubles the backslashes at the end. */
  lemma {:induction false} EscapedWithoutQuote(text: string, slashes: nat)
    requires '"' !in text
    ensures Escaped(text, slashes) == Slashes(slashes) + text + Slashes(Trailing(text, slashes))
    decreases |text|
  {
    if text == "" {
      DoubledSlashes(slashes);
    } else {
      assert text[0] != '"' && '"' !in text[1..];
      var c, held := text[0], Held(text[0], slashes);
      EscapedWithoutQuote(text[1..], held);
      HeldJoins(text, slashes);
      var tail := Slashes(Trailing(text[1..], held));
      assert Trailing(text, slashes) == Trailing(text[1..], held);
      EscapedNext(text, slashes, "");
      assert Escaped(text, slashes) + "" == Escaped(text, slashes);
      assert Emitted(c, slashes) == if c == '\\' then "" else Slashes(slashes) + [c];
      var first, second := Emitted(c, slashes), Slashes(held) + text[1..];
      assert first + (second + tail + "") == first + second + tail;
    }
  }
}
