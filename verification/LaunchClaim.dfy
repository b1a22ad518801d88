/** Which start of a launchd job may run its command, and what it records. */
module LaunchClaim {
  import opened Basics
  import opened Decimal
  import opened LaunchFile

  // ----- the recorded exit -----

  /** What is recorded of an exit code, a line of its own. */
  function Record(code: nat): string {
    Print(code) + "\n"
  }

  const READ_SIZE := 15

  /** What a recorded exit says: a code, unless the record is not whole. */
  function ReadRecord(file: string): Option<int> {
    var value := if |file| > READ_SIZE then file[..READ_SIZE] else file;
    if |value| <= 1 || value[|value| - 1] != '\n' then None
    else
      var code := WholeNumber(value[..|value| - 1]);
      if code.Some? && 0 <= code.value <= 255 then code else None
  }

  lemma RecordIs(code: nat)
    requires code <= 255
    ensures 2 <= |Record(code)| <= 4 && ReadRecord(Record(code)) == Some(code)
  {
    PrintSize(code, 3) by {
      assert Power(1) == 10 && Power(2) == 100 && Power(3) == 1000;
    }
    CountReadsBack(code);
    assert Record(code)[..|Record(code)| - 1] == Print(code);
  }

  /** A record is read up to 15 characters: a whole number from 0 to 255, and a
      line end right after it. */
  lemma RecordReads(file: string, code: int)
    ensures ReadRecord(file) == Some(code) <==>
      var n := if |file| > 15 then 15 else |file|;
      n >= 2 && file[n - 1] == '\n' && WholeNumber(file[..n - 1]) == Some(code) && 0 <= code <= 255
  {
    hide WholeNumber;
    var n := if |file| > 15 then 15 else |file|;
    assert file[..n] == if |file| > READ_SIZE then file[..READ_SIZE] else file;
    assert n > 0 ==> file[..n][..n - 1] == file[..n - 1];
  }

  /** A record that was cut short says nothing. */
  lemma CutRecordSaysNothing(code: nat, n: nat)
    requires code <= 255 && n < |Record(code)|
    ensures ReadRecord(Record(code)[..n]) == None
  {
    RecordIs(code);
    if n > 1 {
      assert Record(code)[n - 1] == Print(code)[n - 1];
    }
  }

  // ----- the starts of one job -----

  /** How far a start of the helper has got. */
  datatype Helper =
    | Starting
    | SawNoStatus
    | HasRead(data: string)
    | Claimed(data: string)
    | Finished(code: nat)
    | Recording(code: nat, written: nat)
    | Gone

  /** The job's private directory, the starts of its helper, which of them
      claimed the file, what was launched, and the code it came to. */
  datatype Job = Job(file: Option<string>, status: Option<string>, helpers: map<nat, Helper>,
                     claimer: Option<nat>, launched: seq<Launch>, code: Option<nat>)

  /** One step of one start; any start can die at any time. */
  datatype Step =
    | Begin(h: nat)
    | LookForStatus(h: nat)
    | ReadFile(h: nat)
    | Unlink(h: nat)
    | RunCommand(h: nat, entered: bool, exit: nat)
    | CreateStatus(h: nat)
    | WriteStatus(h: nat)
    | Die(h: nat)

  predicate CanHappen(job: Job, step: Step) {
    match step
    case Begin(h) => h !in job.helpers
    case LookForStatus(h) => h in job.helpers && job.helpers[h].Starting?
    case ReadFile(h) => h in job.helpers && job.helpers[h].SawNoStatus?
    case Unlink(h) => h in job.helpers && job.helpers[h].HasRead?
    case RunCommand(h, _, exit) => h in job.helpers && job.helpers[h].Claimed? && exit <= 255
    case CreateStatus(h) => h in job.helpers && job.helpers[h].Finished?
    case WriteStatus(h) => h in job.helpers && job.helpers[h].Recording? && job.status.Some?
    case Die(h) => h in job.helpers
  }

  function At(job: Job, h: nat, helper: Helper): Job {
    job.(helpers := job.helpers[h := helper])
  }

  function Next(job: Job, step: Step): Job
    requires CanHappen(job, step)
  {
    match step
    case Begin(h) => At(job, h, Starting)
    case LookForStatus(h) => At(job, h, if job.status.Some? then Gone else SawNoStatus)
    case ReadFile(h) =>
      var readable := job.file.Some? && 0 < |job.file.value| <= MAX_SIZE;
      At(job, h, if readable then HasRead(job.file.value) else Gone)
    case Unlink(h) =>
      if job.file.None? then At(job, h, Gone)
      else At(job, h, Claimed(job.helpers[h].data)).(file := None, claimer := Some(h))
    case RunCommand(h, entered, exit) =>
      var launch := Parse(job.helpers[h].data);
      var code := if launch.None? then 73 else if !entered then 71 else exit;
      var launched := if launch.Some? && entered then job.launched + [launch.value] else job.launched;
      At(job, h, Finished(code)).(launched := launched, code := Some(code))
    case CreateStatus(h) =>
      if job.status.Some? then At(job, h, Gone)
      else At(job, h, Recording(job.helpers[h].code, 0)).(status := Some(""))
    case WriteStatus(h) =>
      var code, written := job.helpers[h].code, job.helpers[h].written;
      if written < |Record(code)| then
        At(job, h, Recording(code, written + 1)).(status := Some(job.status.value + [Record(code)[written]]))
      else At(job, h, Gone)
    case Die(h) => At(job, h, Gone)
  }

  /** A job whose file the launcher has written, before anything started. */
  function Prepared(file: string): Job {
    Job(Some(file), None, map[], None, [], None)
  }

  function Run(file: string, steps: seq<Step>): Option<Job> {
    if steps == [] then Some(Prepared(file))
    else
      var before, last := Run(file, steps[..|steps| - 1]), steps[|steps| - 1];
      if before.Some? && CanHappen(before.value, last) then Some(Next(before.value, last)) else None
  }

  // ----- what always holds -----

  /** What a start may be doing, given who claimed the file. */
  ghost predicate Fits(job: Job, file: string, h: nat)
    requires h in job.helpers
  {
    match job.helpers[h]
    case HasRead(data) => data == file
    case Claimed(data) => data == file && job.claimer == Some(h) && job.code.None?
    case Finished(code) => job.claimer == Some(h) && job.code == Some(code) && job.status.None?
    case Recording(code, written) =>
      job.claimer == Some(h) && job.code == Some(code) && written <= |Record(code)|
      && job.status == Some(Record(code)[..written])
    case _ => true
  }

  ghost predicate Inv(job: Job, file: string) {
    && (job.file.Some? ==> job.file.value == file && job.claimer.None?)
    && (job.claimer.None? ==> job.code.None?)
    && (job.code.None? ==> job.launched == [] && job.status.None?)
    && (job.launched == [] || (Parse(file).Some? && job.launched == [Parse(file).value]))
    && (job.code.Some? ==> job.code.value <= 255)
    && (job.status.Some? ==> job.code.Some? && job.status.value <= Record(job.code.value))
    && (forall h :: h in job.helpers ==> Fits(job, file, h))
  }

  lemma StepKeeps(job: Job, file: string, step: Step)
    requires Inv(job, file) && CanHappen(job, step)
    ensures Inv(Next(job, step), file)
    ensures job.code.Some? ==> Next(job, step).code == job.code
    ensures job.status.Some? ==> Next(job, step).status.Some? && job.status.value <= Next(job, step).status.value
  {
    hide Record, Parse;
    var after := Next(job, step);
    assert !step.Begin? ==> Fits(job, file, step.h);
    if step.WriteStatus? && job.helpers[step.h].written < |Record(job.helpers[step.h].code)| {
      var code, written := job.helpers[step.h].code, job.helpers[step.h].written;
      assert Record(code)[..written] + [Record(code)[written]] == Record(code)[..written + 1];
    }
    forall h | h in after.helpers
      ensures Fits(after, file, h)
    {
      if h in job.helpers {
        assert Fits(job, file, h);
      }
    }
  }

  lemma {:induction false} EveryRun(file: string, steps: seq<Step>)
    ensures var job := Run(file, steps); job.Some? ==> Inv(job.value, file)
  {
    if steps != [] {
      var first, last := steps[..|steps| - 1], steps[|steps| - 1];
      EveryRun(file, first);
      if Run(file, steps).Some? {
        StepKeeps(Run(file, first).value, file, last);
      }
    }
  }

  /** However the starts of a job interleave, and wherever they die, its command
      is launched at most once, exactly as the launcher wrote it; and any exit
      that can be read back is the one the claiming start came to. */
  lemma ExactlyOnce(launch: Launch, steps: seq<Step>)
    requires Run(Content(Entries(launch)), steps).Some?
    ensures
      var job := Run(Content(Entries(launch)), steps).value;
      && (job.launched == []
          || job.launched == [Launch(launch.directory, launch.command, Filtered(launch.environment))])
      && (job.launched != [] ==> Runnable(launch))
      && (job.status.Some? && ReadRecord(job.status.value).Some? ==>
        job.code.Some? && ReadRecord(job.status.value).value == job.code.value)
  {
    var file := Content(Entries(launch));
    EveryRun(file, steps);
    LaunchReadsBack(launch);
    var job := Run(file, steps).value;
    if job.status.Some? {
      RecordIs(job.code.value);
      var n := |job.status.value|;
      assert job.status.value == Record(job.code.value)[..n];
      if n < |Record(job.code.value)| {
        CutRecordSaysNothing(job.code.value, n);
      } else {
        assert job.status.value == Record(job.code.value);
      }
    }
  }

  lemma RecordKept(job: Job, file: string, step: Step)
    requires Inv(job, file) && CanHappen(job, step) && job.status.Some? && ReadRecord(job.status.value).Some?
    ensures Next(job, step).status == job.status
  {
    var after := Next(job, step);
    StepKeeps(job, file, step);
    WholeRecord(job.status.value, job.code.value);
    assert after.status.value == job.status.value;
  }

  /** Once an exit can be read back it never changes. */
  lemma {:induction false} RecordStays(file: string, steps: seq<Step>, k: nat)
    requires k <= |steps| && Run(file, steps).Some? && Run(file, steps[..k]).Some?
    requires Run(file, steps[..k]).value.status.Some? && ReadRecord(Run(file, steps[..k]).value.status.value).Some?
    ensures Run(file, steps).value.status == Run(file, steps[..k]).value.status
    decreases |steps|
  {
    if k == |steps| {
      assert steps[..k] == steps;
    } else {
      var first, last := steps[..|steps| - 1], steps[|steps| - 1];
      assert first[..k] == steps[..k];
      assert Run(file, first).Some? && CanHappen(Run(file, first).value, last);
      assert Run(file, steps).value == Next(Run(file, first).value, last);
      hide *;
      RecordStays(file, first, k);
      EveryRun(file, first);
      RecordKept(Run(file, first).value, file, last);
    }
  }

  lemma WholeRecord(status: string, code: nat)
    requires code <= 255 && status <= Record(code) && ReadRecord(status).Some?
    ensures status == Record(code)
  {
    hide *;
    RecordIs(code);
    assert status == Record(code)[..|status|];
    if |status| < |Record(code)| {
      CutRecordSaysNothing(code, |status|);
    }
  }

  /** Two starts never both claim the file. */
  lemma OneClaimer(file: string, steps: seq<Step>, a: nat, b: nat)
    requires Run(file, steps).Some?
    requires a in Run(file, steps).value.helpers && b in Run(file, steps).value.helpers
    requires Run(file, steps).value.helpers[a].Claimed? || Run(file, steps).value.helpers[a].Finished?
          || Run(file, steps).value.helpers[a].Recording?
    requires Run(file, steps).value.helpers[b].Claimed? || Run(file, steps).value.helpers[b].Finished?
          || Run(file, steps).value.helpers[b].Recording?
    ensures a == b
  {
    EveryRun(file, steps);
    assert Fits(Run(file, steps).value, file, a) && Fits(Run(file, steps).value, file, b);
  }

  /** A start gives up as soon as it finds a recorded status, no file, an empty or
      a too large one, or the file gone when it claims it. */
  lemma GivesUp(job: Job, h: nat)
    ensures CanHappen(job, LookForStatus(h)) ==>
      (Next(job, LookForStatus(h)).helpers[h].Gone? <==> job.status.Some?)
    ensures CanHappen(job, ReadFile(h)) ==>
      (Next(job, ReadFile(h)).helpers[h].Gone? <==>
        job.file.None? || job.file.value == "" || |job.file.value| > 1048576)
    ensures CanHappen(job, Unlink(h)) ==> (Next(job, Unlink(h)).helpers[h].Gone? <==> job.file.None?)
    ensures CanHappen(job, CreateStatus(h)) ==>
      (Next(job, CreateStatus(h)).helpers[h].Gone? <==> job.status.Some?)
  {}

  /** A helper takes these steps only one after another. */
  lemma StepsInOrder(job: Job, step: Step)
    requires CanHappen(job, step) && !step.Begin? && !step.Die?
    ensures step.h in job.helpers
    ensures
      var helper := job.helpers[step.h];
      && (helper.Starting? <==> step.LookForStatus?) && (helper.SawNoStatus? <==> step.ReadFile?)
      && (helper.HasRead? <==> step.Unlink?) && (helper.Claimed? <==> step.RunCommand?)
      && (helper.Finished? <==> step.CreateStatus?) && (helper.Recording? <==> step.WriteStatus?)
  {}

  // ----- one start that nothing disturbs -----

  /** The steps of one start, in the order of the helper's code. */
  function Start(h: nat, entered: bool, exit: nat, written: nat): seq<Step> {
    [Begin(h), LookForStatus(h), ReadFile(h), Unlink(h), RunCommand(h, entered, exit), CreateStatus(h)]
    + Writes(h, written)
  }

  function Writes(h: nat, n: nat): (steps: seq<Step>)
    ensures |steps| == n && forall i :: 0 <= i < n ==> steps[i] == WriteStatus(h)
  {
    seq(n, _ => WriteStatus(h))
  }

  lemma RunNext(file: string, steps: seq<Step>, step: Step)
    requires Run(file, steps).Some? && CanHappen(Run(file, steps).value, step)
    ensures Run(file, steps + [step]) == Some(Next(Run(file, steps).value, step))
  {
    assert (steps + [step])[..|steps|] == steps;
  }

  /** The code a start comes to. */
  function CodeOf(launch: Option<Launch>, entered: bool, exit: nat): nat {
    if launch.None? then 73 else if !entered then 71 else exit
  }

  lemma StartReads(file: string, h: nat)
    requires 0 < |file| <= MAX_SIZE
    ensures Run(file, [Begin(h), LookForStatus(h), ReadFile(h)])
         == Some(Job(Some(file), None, map[h := HasRead(file)], None, [], None))
  {
    hide Run;
    NothingRun(file);
    RunNext(file, [], Begin(h));
    var one := [] + [Begin(h)];
    assert Run(file, one) == Some(Job(Some(file), None, map[h := Starting], None, [], None));
    RunNext(file, one, LookForStatus(h));
    var two := one + [LookForStatus(h)];
    assert map[h := Starting][h := SawNoStatus] == map[h := SawNoStatus];
    assert Run(file, two) == Some(Job(Some(file), None, map[h := SawNoStatus], None, [], None));
    RunNext(file, two, ReadFile(h));
    assert map[h := SawNoStatus][h := HasRead(file)] == map[h := HasRead(file)];
    assert two + [ReadFile(h)] == [Begin(h), LookForStatus(h), ReadFile(h)];
  }

  lemma CommandRun(file: string, h: nat, entered: bool, exit: nat)
    requires exit <= 255
    ensures Next(Job(None, None, map[h := Claimed(file)], Some(h), [], None), RunCommand(h, entered, exit))
         == Job(None, None, map[h := Finished(CodeOf(Parse(file), entered, exit))], Some(h),
                if Parse(file).Some? && entered then [Parse(file).value] else [],
                Some(CodeOf(Parse(file), entered, exit)))
  {
    hide Parse;
    var code := CodeOf(Parse(file), entered, exit);
    assert map[h := Claimed(file)][h := Finished(code)] == map[h := Finished(code)];
  }

  /** The command's part of a start. */
  lemma StartRuns(file: string, h: nat, entered: bool, exit: nat)
    requires 0 < |file| <= MAX_SIZE && exit <= 255
    ensures
      var code, launch := CodeOf(Parse(file), entered, exit), Parse(file);
      Run(file, [Begin(h), LookForStatus(h), ReadFile(h)] + [Unlink(h)] + [RunCommand(h, entered, exit)])
        == Some(Job(None, None, map[h := Finished(code)], Some(h),
                    if launch.Some? && entered then [launch.value] else [], Some(code)))
  {
    hide Parse, Run, CodeOf;
    var three := [Begin(h), LookForStatus(h), ReadFile(h)];
    StartReads(file, h);
    RunNext(file, three, Unlink(h));
    assert map[h := HasRead(file)][h := Claimed(file)] == map[h := Claimed(file)];
    assert Run(file, three + [Unlink(h)]) == Some(Job(None, None, map[h := Claimed(file)], Some(h), [], None));
    CommandRun(file, h, entered, exit);
    hide Next;
    RunNext(file, three + [Unlink(h)], RunCommand(h, entered, exit));
  }

  lemma StartClaims(file: string, h: nat, entered: bool, exit: nat)
    requires 0 < |file| <= MAX_SIZE && exit <= 255
    ensures
      var job, code := Run(file, Start(h, entered, exit, 0)), CodeOf(Parse(file), entered, exit);
      job == Some(Job(None, Some(""), map[h := Recording(code, 0)], Some(h),
                      if Parse(file).Some? && entered then [Parse(file).value] else [], Some(code)))
  {
    hide Parse, Run, CodeOf;
    var five := [Begin(h), LookForStatus(h), ReadFile(h)] + [Unlink(h)] + [RunCommand(h, entered, exit)];
    var code := CodeOf(Parse(file), entered, exit);
    StartRuns(file, h, entered, exit);
    RunNext(file, five, CreateStatus(h));
    assert map[h := Finished(code)][h := Recording(code, 0)] == map[h := Recording(code, 0)];
    assert Start(h, entered, exit, 0) == five + [CreateStatus(h)];
  }

  /** Writing the record, and closing it. */
  lemma {:induction false} StartWrites(file: string, h: nat, entered: bool, exit: nat, n: nat)
    requires 0 < |file| <= MAX_SIZE && exit <= 255
    requires n <= |Record(CodeOf(Parse(file), entered, exit))|
    ensures
      var job, code := Run(file, Start(h, entered, exit, n)), CodeOf(Parse(file), entered, exit);
      job == Some(Job(None, Some(Record(code)[..n]), map[h := Recording(code, n)], Some(h),
                      if Parse(file).Some? && entered then [Parse(file).value] else [], Some(code)))
  {
    hide Parse, Run, Record;
    if n == 0 {
      StartClaims(file, h, entered, exit);
    } else {
      var code := CodeOf(Parse(file), entered, exit);
      StartWrites(file, h, entered, exit, n - 1);
      RunNext(file, Start(h, entered, exit, n - 1), WriteStatus(h));
      assert Start(h, entered, exit, n) == Start(h, entered, exit, n - 1) + [WriteStatus(h)];
      assert Record(code)[..n] == Record(code)[..n - 1] + [Record(code)[n - 1]];
      assert map[h := Recording(code, n - 1)][h := Recording(code, n)] == map[h := Recording(code, n)];
    }
  }

  /** A start that nothing disturbs claims the file, launches exactly the command
      that was written, if it can be run and its directory entered, and leaves a
      record that reads back as the exit it came to: the command's own, 71 when
      the directory could not be entered, 73 when there was nothing to run. */
  lemma UndisturbedStart(launch: Launch, h: nat, entered: bool, exit: nat) returns (steps: seq<Step>)
    requires |Content(Entries(launch))| <= 1048576 && exit <= 255
    ensures
      var job := Run(Content(Entries(launch)), steps);
      && job.Some? && job.value.file == None && job.value.claimer == Some(h) && job.value.helpers == map[h := Gone]
      && job.value.launched == (
        if Runnable(launch) && entered then [Launch(launch.directory, launch.command, Filtered(launch.environment))]
        else [])
      && job.value.status.Some? && ReadRecord(job.value.status.value) ==
         Some(if !Runnable(launch) then 73 else if !entered then 71 else exit)
  {
    var file := Content(Entries(launch));
    assert 0 < |file| by {
      ContentIs(Entries(launch));
      TokensReadBack(Entries(launch));
    }
    LaunchReadsBack(launch);
    hide Parse, Run, Record, Content, Entries, Runnable, ReadRecord;
    var code := CodeOf(Parse(file), entered, exit);
    var n := |Record(code)|;
    StartWrites(file, h, entered, exit, n);
    var before := Start(h, entered, exit, n);
    RunNext(file, before, WriteStatus(h));
    steps := before + [WriteStatus(h)];
    assert map[h := Recording(code, n)][h := Gone] == map[h := Gone];
    assert Record(code)[..n] == Record(code);
    RecordIs(code);
  }

  lemma NothingRun(file: string)
    ensures Run(file, []) == Some(Prepared(file))
  {}
}
