/** The private file that hands a command to the helper launchd starts. */
module LaunchFile {
  import opened Basics
  import opened Decimal

  /** What a C string can hold. */
  type Text = s: string | '\0' !in s witness ""

  datatype Launch = Launch(directory: Text, command: seq<Text>, environment: seq<Text>)

  const OWNER_MARK := "OUTRIGHT_UTILITY_OWNER="
  const MAX_SIZE := 1048576

  predicate StartsWith(text: string, prefix: string) {
    |prefix| <= |text| && text[..|prefix|] == prefix
  }

  /** The environment without the owner's own mark. */
  function Filtered(environment: seq<Text>): seq<Text> {
    if environment == [] then []
    else if StartsWith(environment[|environment| - 1], OWNER_MARK) then Filtered(environment[..|environment| - 1])
    else Filtered(environment[..|environment| - 1]) + [environment[|environment| - 1]]
  }

  function Entries(launch: Launch): seq<Text> {
    [launch.directory, Count(|launch.command|)] + launch.command + Filtered(launch.environment)
  }

  function Count(n: nat): Text {
    assert '\0' !in Print(n);
    Print(n)
  }

  function Content(entries: seq<Text>): string {
    if entries == [] then "" else Content(entries[..|entries| - 1]) + entries[|entries| - 1] + "\0"
  }

  // ----- writing -----

  lemma ContentAdds(entries: seq<Text>, entry: Text)
    ensures Content(entries + [entry]) == Content(entries) + entry + "\0"
  {
    assert (entries + [entry])[..|entries|] == entries;
  }

  lemma {:induction false} ContentGrows(entries: seq<Text>, more: seq<Text>)
    ensures |Content(entries)| <= |Content(entries + more)|
  {
    if more == [] {
      assert entries + more == entries;
    } else {
      ContentGrows(entries, more[..|more| - 1]);
      assert entries + more == entries + more[..|more| - 1] + [more[|more| - 1]];
      ContentAdds(entries + more[..|more| - 1], more[|more| - 1]);
    }
  }

  /** `write_launch_entry`: refuses an entry that would exceed the limit. */
  method WriteEntry(file: string, entry: Text) returns (written: string, complete: bool)
    requires |file| <= MAX_SIZE
    ensures complete <==> |file| + |entry| + 1 <= MAX_SIZE
    ensures complete ==> written == file + entry + "\0"
  {
    var length := |entry| + 1;
    written := file;
    if length > MAX_SIZE - |file| { return written, false; }
    written := written + entry + "\0";
    complete := true;
  }

  lemma EntriesNext(before: seq<Text>, entries: seq<Text>, index: nat)
    requires index < |entries|
    ensures Content(before + entries[..index + 1]) == Content(before + entries[..index]) + entries[index] + "\0"
    ensures |Content(before + entries[..index + 1])| <= |Content(before + entries)|
  {
    hide Content;
    assert before + entries[..index + 1] == before + entries[..index] + [entries[index]];
    ContentAdds(before + entries[..index], entries[index]);
    ContentGrows(before + entries[..index + 1], entries[index + 1..]);
    assert before + entries == before + entries[..index + 1] + entries[index + 1..];
  }

  method WriteEntries(file: string, entries: seq<Text>, ghost before: seq<Text>)
    returns (written: string, complete: bool)
    requires |file| <= MAX_SIZE && file == Content(before)
    ensures complete <==> |Content(before + entries)| <= MAX_SIZE
    ensures complete ==> written == Content(before + entries)
  {
    hide Content;
    written, complete := file, true;
    assert before + entries[..0] == before;
    for index := 0 to |entries|
      invariant |written| <= MAX_SIZE && complete && written == Content(before + entries[..index])
    {
      EntriesNext(before, entries, index);
      written, complete := WriteEntry(written, entries[index]);
      if !complete { return; }
    }
    assert entries[..|entries|] == entries;
  }

  method WithoutOwner(environment: seq<Text>) returns (kept: seq<Text>)
    ensures kept == Filtered(environment)
  {
    kept := [];
    for index := 0 to |environment|
      invariant kept == Filtered(environment[..index])
    {
      assert environment[..index + 1][..index] == environment[..index];
      if StartsWith(environment[index], OWNER_MARK) { continue; }
      kept := kept + [environment[index]];
    }
    assert environment[..|environment|] == environment;
  }

  /** `write_launch_environment`: the whole file, or none when it is too large. */
  method Write(launch: Launch) returns (file: Option<string>)
    ensures file == if |Content(Entries(launch))| <= 1048576 then Some(Content(Entries(launch))) else None
  {
    var kept := WithoutOwner(launch.environment);
    var head := [launch.directory, Count(|launch.command|)];
    assert Content([]) == "";
    assert [] + Entries(launch) == head + launch.command + kept;
    var written, complete := WriteEntries("", head + launch.command + kept, []);
    file := if complete then Some(written) else None;
  }

  // ----- reading -----

  function FirstZero(data: string): (n: nat)
    ensures n <= |data| && (n < |data| ==> data[n] == '\0') && forall i :: 0 <= i < n ==> data[i] != '\0'
  {
    if data == "" || data[0] == '\0' then 0 else 1 + FirstZero(data[1..])
  }

  /** The texts that each end at a NUL. */
  function Tokens(data: string): seq<Text>
    decreases |data|
  {
    var n := FirstZero(data);
    if n == |data| then [] else
      assert '\0' !in data[..n];
      [data[..n]] + Tokens(data[n + 1..])
  }

  predicate Space(c: char) {
    c == ' ' || 9 <= c as int <= 13
  }

  function SkipSpaces(text: string): (rest: string)
    ensures |rest| <= |text|
  {
    if text != "" && Space(text[0]) then SkipSpaces(text[1..]) else text
  }

  /** A sign or none, digits, and nothing else. */
  function SignedNumber(text: string): Option<int> {
    var negative := text != "" && text[0] == '-';
    var body := if text != "" && (text[0] == '+' || text[0] == '-') then text[1..] else text;
    if Digits(body) == 0 || Digits(body) < |body| then None
    else
      var value: int := Number(body);
      Some(if negative then -value else value)
  }

  /** A whole text as strtol reads it, after white space. */
  function WholeNumber(text: string): Option<int> {
    SignedNumber(SkipSpaces(text))
  }

  predicate Assignment(entry: string) {
    entry != "" && '=' in entry
  }

  predicate Assignments(environment: seq<Text>) {
    forall i :: 0 <= i < |environment| ==> Assignment(environment[i])
  }

  function Parse(data: string): Option<Launch> {
    var tokens := Tokens(data);
    if |tokens| < 3 || data[|data| - 1] != '\0' then None
    else
      var count := WholeNumber(tokens[1]);
      if tokens[0] == "" || count.None? || count.value < 1 || count.value > |tokens| - 2 || tokens[2] == "" then None
      else
        var environment := tokens[2 + count.value..];
        if !Assignments(environment) then None
        else Some(Launch(tokens[0], tokens[2..2 + count.value], environment))
  }

  lemma {:induction false} TokensSize(data: string)
    ensures |Tokens(data)| <= |data|
    decreases |data|
  {
    var n := FirstZero(data);
    if n < |data| {
      TokensSize(data[n + 1..]);
    }
  }

  function Zeros(data: string): nat {
    if data == "" then 0 else Zeros(data[..|data| - 1]) + if data[|data| - 1] == '\0' then 1 else 0
  }

  lemma {:induction false} ZerosJoin(left: string, right: string)
    ensures Zeros(left + right) == Zeros(left) + Zeros(right)
  {
    if right == "" {
      assert left + right == left;
    } else {
      assert (left + right)[..|left + right| - 1] == left + right[..|right| - 1];
      ZerosJoin(left, right[..|right| - 1]);
    }
  }

  lemma {:induction false} NoZeros(data: string)
    requires '\0' !in data
    ensures Zeros(data) == 0
  {
    if data != "" {
      NoZeros(data[..|data| - 1]);
    }
  }

  /** As many tokens as there are NULs. */
  lemma {:induction false} TokensCounted(data: string)
    ensures |Tokens(data)| == Zeros(data)
    decreases |data|
  {
    hide FirstZero, Zeros;
    var n := FirstZero(data);
    NoZeros(data[..n]);
    if n < |data| {
      TokensCounted(data[n + 1..]);
      assert data == data[..n] + ("\0" + data[n + 1..]);
      ZerosJoin(data[..n], "\0" + data[n + 1..]);
      ZerosJoin("\0", data[n + 1..]);
      OneZero();
    } else {
      assert data[..n] == data;
    }
  }

  lemma OneZero()
    ensures Zeros("\0") == 1
  {
    assert "\0"[..0] == "";
  }

  method CountZeros(data: string) returns (count: nat)
    ensures count == Zeros(data)
  {
    count := 0;
    for offset := 0 to |data|
      invariant count == Zeros(data[..offset])
    {
      assert data[..offset + 1][..offset] == data[..offset];
      if data[offset] == '\0' {
        count := count + 1;
      }
    }
    assert data[..|data|] == data;
  }

  method CheckAssignments(environment: seq<Text>) returns (good: bool)
    ensures good <==> Assignments(environment)
  {
    for entry := 0 to |environment|
      invariant Assignments(environment[..entry])
    {
      if !Assignment(environment[entry]) { return false; }
    }
    good := true;
  }

  /** `parse_launch_file`: counts the NULs, then fills a token array of that size. */
  method ParseFile(data: string) returns (launch: Option<Launch>)
    requires data != ""
    ensures launch == Parse(data)
  {
    var tokenCount := CountZeros(data);
    TokensCounted(data);
    hide Tokens, WholeNumber, Assignments, Zeros;
    if tokenCount < 3 || data[|data| - 1] != '\0' { return None; }
    var filled := FillTokens(data, tokenCount);
    var tokens := filled[..];
    var count := WholeNumber(tokens[1]);
    if tokens[0] == "" || count.None? || count.value < 1 || count.value > tokenCount - 2
      || tokens[2] == ""
    {
      return None;
    }
    var good := CheckAssignments(tokens[2 + count.value..]);
    if !good { return None; }
    launch := Some(Launch(tokens[0], tokens[2..2 + count.value], tokens[2 + count.value..]));
  }

  /** The tokens filled so far, and those still to come. */
  ghost predicate Filling(data: string, filled: seq<Text>, offset: nat) {
    offset <= |data| && filled + Tokens(data[offset..]) == Tokens(data)
  }

  lemma TokensOne(data: string)
    requires FirstZero(data) < |data|
    ensures '\0' !in data[..FirstZero(data)]
    ensures Tokens(data) == [data[..FirstZero(data)]] + Tokens(data[FirstZero(data) + 1..])
  {
    hide FirstZero;
  }

  lemma TokensCut(data: string, offset: nat, n: nat)
    requires data != "" && data[|data| - 1] == '\0' && offset < |data| && n == FirstZero(data[offset..])
    ensures n < |data| - offset && '\0' !in data[offset..offset + n]
    ensures Tokens(data[offset..]) == [data[offset..offset + n]] + Tokens(data[offset + n + 1..])
  {
    hide *;
    var rest := data[offset..];
    assert rest[|rest| - 1] == '\0';
    TokensOne(rest);
    assert rest[..n] == data[offset..offset + n];
    assert rest[n + 1..] == data[offset + n + 1..];
  }

  lemma FillNext(data: string, filled: seq<Text>, offset: nat, n: nat)
    requires data != "" && data[|data| - 1] == '\0' && offset < |data| && Filling(data, filled, offset)
    requires n == FirstZero(data[offset..])
    ensures n < |data| - offset && |filled| < |Tokens(data)| && '\0' !in data[offset..offset + n]
    ensures Filling(data, filled + [data[offset..offset + n]], offset + n + 1)
  {
    hide FirstZero, Tokens;
    TokensCut(data, offset, n);
    var token, next := data[offset..offset + n], Tokens(data[offset + n + 1..]);
    assert Tokens(data) == filled + ([token] + next);
    assert filled + ([token] + next) == filled + [token] + next;
    assert Filling(data, filled + [token], offset + n + 1);
  }

  lemma FillStart(data: string)
    ensures Filling(data, [], 0)
  {
    hide Tokens;
    assert data[0..] == data;
    assert [] + Tokens(data) == Tokens(data);
  }

  lemma FillDone(data: string, filled: seq<Text>, offset: nat)
    requires Filling(data, filled, offset) && offset == |data|
    ensures filled == Tokens(data)
  {
    assert data[offset..] == "" && Tokens("") == [];
  }

  method FillOne(tokens: array<Text>, index: nat, data: string, offset: nat) returns (next: nat)
    requires data != "" && data[|data| - 1] == '\0' && offset < |data| && index <= tokens.Length == |Tokens(data)|
    requires Filling(data, tokens[..index], offset)
    modifies tokens
    ensures index < tokens.Length && offset < next && Filling(data, tokens[..index + 1], next)
  {
    hide *;
    var n := FirstZero(data[offset..]);
    ghost var before := tokens[..index];
    FillNext(data, before, offset, n);
    tokens[index] := data[offset..offset + n];
    assert tokens[..index + 1] == before + [data[offset..offset + n]];
    next := offset + n + 1;
  }

  method FillTokens(data: string, tokenCount: nat) returns (tokens: array<Text>)
    requires data != "" && data[|data| - 1] == '\0' && tokenCount == |Tokens(data)|
    ensures tokens[..] == Tokens(data)
  {
    tokens := new Text[tokenCount](_ => "");
    var offset, index := 0, 0;
    FillStart(data);
    assert tokens[..0] == [];
    while offset < |data|
      invariant 0 <= offset && 0 <= index <= tokenCount && Filling(data, tokens[..index], offset)
      decreases |data| - offset
    {
      offset := FillOne(tokens, index, data, offset);
      index := index + 1;
    }
    assert offset == |data|;
    FillDone(data, tokens[..index], offset);
    assert tokens[..index] == tokens[..];
  }

  // ----- what is written is what is read -----

  lemma FirstZeroAt(text: Text, rest: string)
    ensures FirstZero(text + "\0" + rest) == |text|
    decreases |text|
  {
    var data := text + "\0" + rest;
    assert data[|text|] == '\0';
    assert forall i :: 0 <= i < |text| ==> data[i] == text[i];
  }

  function ContentFrom(entries: seq<Text>): string {
    if entries == [] then "" else entries[0] + "\0" + ContentFrom(entries[1..])
  }

  lemma {:induction false} ContentIs(entries: seq<Text>)
    ensures Content(entries) == ContentFrom(entries)
  {
    if entries != [] {
      var first, last := entries[..|entries| - 1], entries[|entries| - 1];
      ContentIs(first);
      ContentFromAdds(first, last);
      assert first + [last] == entries;
    }
  }

  lemma {:induction false} ContentFromAdds(entries: seq<Text>, last: Text)
    ensures ContentFrom(entries + [last]) == ContentFrom(entries) + last + "\0"
  {
    if entries == [] {
      assert entries + [last] == [last];
      assert [last][1..] == [];
      assert last + "\0" + "" == "" + last + "\0";
    } else {
      assert (entries + [last])[1..] == entries[1..] + [last];
      ContentFromAdds(entries[1..], last);
      var head, tail := entries[0] + "\0", ContentFrom(entries[1..]);
      assert head + (tail + last + "\0") == head + tail + last + "\0";
    }
  }

  lemma TokensNext(text: Text, rest: string)
    ensures Tokens(text + "\0" + rest) == [text] + Tokens(rest)
  {
    var data := text + "\0" + rest;
    FirstZeroAt(text, rest);
    assert data[..|text|] == text && data[|text| + 1..] == rest;
  }

  lemma {:induction false} TokensReadBack(entries: seq<Text>)
    ensures Tokens(ContentFrom(entries)) == entries
    ensures entries != [] ==> ContentFrom(entries) != "" && ContentFrom(entries)[|ContentFrom(entries)| - 1] == '\0'
  {
    if entries != [] {
      TokensReadBack(entries[1..]);
      hide Tokens;
      TokensNext(entries[0], ContentFrom(entries[1..]));
      assert entries == [entries[0]] + entries[1..];
    }
  }

  lemma CountReadsBack(n: nat)
    ensures WholeNumber(Print(n)) == Some(n)
  {
    var text := Print(n);
    assert IsDigit(text[0]);
    assert SkipSpaces(text) == text;
    DigitsThen(text, "");
    assert text + "" == text;
    PrintReadsBack(n);
  }

  ghost predicate Spaces(text: string) {
    forall i :: 0 <= i < |text| ==> text[i] == ' ' || 9 <= text[i] as int <= 13
  }

  ghost predicate Decimals(text: string) {
    text != "" && forall i :: 0 <= i < |text| ==> '0' <= text[i] <= '9'
  }

  function DecimalValue(text: string): int {
    if text == "" then 0 else 10 * DecimalValue(text[..|text| - 1]) + (text[|text| - 1] as int - '0' as int)
  }

  /** White space, a sign or none, and digits. */
  ghost predicate Written(text: string, space: string, sign: string, digits: string) {
    Spaces(space) && (sign == "" || sign == "+" || sign == "-") && Decimals(digits) && text == space + sign + digits
  }

  /** A text is a whole number exactly when it is white space, a sign or none,
      and digits, and then that number. */
  lemma WholeNumberIs(text: string)
    ensures forall space, sign, digits :: Written(text, space, sign, digits) ==>
      WholeNumber(text) == Some(if sign == "-" then -DecimalValue(digits) else DecimalValue(digits))
    ensures WholeNumber(text).Some? ==> exists space, sign, digits :: Written(text, space, sign, digits)
  {
    hide Written, WholeNumber, DecimalValue;
    forall space, sign, digits | Written(text, space, sign, digits)
      ensures WholeNumber(text) == Some(if sign == "-" then -DecimalValue(digits) else DecimalValue(digits))
    {
      WrittenReads(text, space, sign, digits);
    }
    if WholeNumber(text).Some? {
      var space, sign, digits := ReadIsWritten(text);
    }
  }

  lemma ReadIsWritten(text: string) returns (space: string, sign: string, digits: string)
    requires WholeNumber(text).Some?
    ensures Written(text, space, sign, digits)
  {
    hide SkipSpaces, Spaces, SignedNumber, Decimals;
    SkippedIs(text);
    var rest := SkipSpaces(text);
    space := text[..|text| - |rest|];
    sign, digits := SignedIs(rest);
    assert space + sign + digits == space + (sign + digits);
  }

  lemma SignedIs(text: string) returns (sign: string, digits: string)
    requires SignedNumber(text).Some?
    ensures (sign == "" || sign == "+" || sign == "-") && Decimals(digits) && text == sign + digits
  {
    hide Number;
    if text != "" && (text[0] == '+' || text[0] == '-') {
      sign, digits := [text[0]], text[1..];
    } else {
      sign, digits := "", text;
    }
    assert Digits(digits) == |digits| > 0;
    assert Decimals(digits);
  }

  lemma {:induction false} SkippedIs(text: string)
    ensures |SkipSpaces(text)| <= |text| && text == text[..|text| - |SkipSpaces(text)|] + SkipSpaces(text)
    ensures Spaces(text[..|text| - |SkipSpaces(text)|])
  {
    if text != "" && Space(text[0]) {
      SkippedIs(text[1..]);
      var n := |text| - |SkipSpaces(text)|;
      assert text[..n] == [text[0]] + text[1..][..n - 1];
    }
  }

  lemma {:induction false} SpacesSkipped(space: string, rest: string)
    requires Spaces(space) && (rest == "" || rest[0] > ' ')
    ensures SkipSpaces(space + rest) == rest
  {
    if space == "" {
      assert space + rest == rest;
    } else {
      assert (space + rest)[1..] == space[1..] + rest;
      SpacesSkipped(space[1..], rest);
    }
  }

  lemma {:induction false} NumberIs(digits: string)
    requires forall i :: 0 <= i < |digits| ==> IsDigit(digits[i])
    ensures Number(digits) == DecimalValue(digits)
  {
    if digits != "" {
      NumberIs(digits[..|digits| - 1]);
    }
  }

  lemma DigitsRead(digits: string)
    requires Decimals(digits)
    ensures Digits(digits) == |digits| && Number(digits) == DecimalValue(digits)
  {
    DigitsThen(digits, "");
    assert digits + "" == digits;
    NumberIs(digits);
  }

  lemma SignedReads(sign: string, digits: string)
    requires (sign == "" || sign == "+" || sign == "-") && Decimals(digits)
    ensures SignedNumber(sign + digits) == Some(if sign == "-" then -DecimalValue(digits) else DecimalValue(digits))
  {
    hide Digits, Number, DecimalValue;
    DigitsRead(digits);
    var text := sign + digits;
    if sign == "" {
      assert text == digits;
      assert '0' <= digits[0] <= '9';
    } else {
      assert text[0] == sign[0] && text[1..] == digits;
    }
  }

  lemma WrittenReads(text: string, space: string, sign: string, digits: string)
    requires Written(text, space, sign, digits)
    ensures WholeNumber(text) == Some(if sign == "-" then -DecimalValue(digits) else DecimalValue(digits))
  {
    hide SkipSpaces, Spaces, SignedNumber, DecimalValue;
    var rest := sign + digits;
    assert text == space + rest;
    assert rest[0] == if sign == "" then digits[0] else sign[0];
    SpacesSkipped(space, rest);
    SignedReads(sign, digits);
  }

  /** A launch the helper can run: a directory, a program, and an environment of
      assignments once the owner's mark is left out. */
  predicate Runnable(launch: Launch) {
    launch.directory != "" && launch.command != [] && launch.command[0] != ""
    && forall i :: 0 <= i < |Filtered(launch.environment)| ==> '=' in Filtered(launch.environment)[i]
  }

  lemma EntriesAre(launch: Launch)
    ensures
      var entries, n := Entries(launch), |launch.command|;
      && |entries| == 2 + n + |Filtered(launch.environment)|
      && entries[0] == launch.directory && entries[1] == Print(n)
      && entries[2..2 + n] == launch.command && entries[2 + n..] == Filtered(launch.environment)
      && (n > 0 ==> entries[2] == launch.command[0])
  {
    hide Print, Filtered;
  }

  /** The helper reads exactly the directory, arguments and filtered environment
      that were written, or nothing when they cannot be run. */
  lemma LaunchReadsBack(launch: Launch)
    ensures Parse(Content(Entries(launch)))
         == if Runnable(launch) then Some(Launch(launch.directory, launch.command, Filtered(launch.environment)))
           else None
  {
    hide Content, Tokens, WholeNumber, Entries, Filtered, Assignments;
    var entries := Entries(launch);
    ContentIs(entries);
    TokensReadBack(entries);
    CountReadsBack(|launch.command|);
    EntriesAre(launch);
    AssignmentsAre(Filtered(launch.environment));
  }

  lemma AssignmentsAre(environment: seq<Text>)
    ensures Assignments(environment) <==> forall i :: 0 <= i < |environment| ==> '=' in environment[i]
  {}

  /** The filter takes out what names the owner's mark, and nothing else: it looks
      at each entry alone and keeps their order. */
  lemma {:induction false} FilteredIs(environment: seq<Text>, more: seq<Text>, entry: Text)
    ensures Filtered(environment + more) == Filtered(environment) + Filtered(more)
    ensures Filtered([entry]) ==
      if |entry| >= 23 && entry[..23] == "OUTRIGHT_UTILITY_OWNER=" then [] else [entry]
  {
    assert [entry][..0] == [];
    if more == [] {
      assert environment + more == environment;
    } else {
      FilteredIs(environment, more[..|more| - 1], entry);
      assert (environment + more)[..|environment + more| - 1] == environment + more[..|more| - 1];
    }
  }
}
