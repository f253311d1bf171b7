/** The mission runner (`src/cli/mission.ts`): a checklist run task by task, with its progress on disk. */
module Mission {
  import opened Wrappers

  datatype Status = Pending | Planned | Running | Passed | Failed | Skipped | Blocked | NeedsReview

  type Tasks = seq<Status>

  /** One step of a command that can be told from outside: the summary is written, or a task is executed. */
  datatype Step = Persist(tasks: Tasks) | Execute(task: nat)

  datatype Command =
    | Plan(count: nat)
    | Run(count: nat, continueOnError: bool, codes: nat -> int)
    | Resume(continueOnError: bool, codes: nat -> int)
    | Rerun(task: nat, continueOnError: bool, codes: nat -> int)
    | Mark(task: nat, status: Status)

  /** What is left alone by `resume`. */
  predicate Settled(s: Status) { s == Passed || s == Blocked || s == NeedsReview }

  /** `shouldRun`. */
  predicate Selected(c: Command, i: nat, s: Status) {
    match c
    case Resume(_, _) => !Settled(s)
    case Rerun(task, _, _) => i == task
    case _ => true
  }

  predicate Executes(c: Command) { c.Run? || c.Resume? || c.Rerun? }

  // ------------------------------------------------------------------ the run of the selected tasks

  function Outcome(c: Command, i: nat): Status
    requires Executes(c)
  {
    if c.codes(i) == 0 then Passed else Failed
  }

  /** Whether the task is executed: selected, and no failure has stopped the run. */
  predicate Runs(tasks: Tasks, i: nat, failed: bool, c: Command)
    requires Executes(c) && i < |tasks|
  {
    Selected(c, i, tasks[i]) && (c.continueOnError || !failed)
  }

  function AfterTask(tasks: Tasks, i: nat, failed: bool, c: Command): (r: Tasks)
    requires Executes(c) && i < |tasks|
    ensures |r| == |tasks| && forall k :: 0 <= k < |r| && k != i ==> r[k] == tasks[k]
  {
    if !Selected(c, i, tasks[i]) then tasks
    else if Runs(tasks, i, failed, c) then tasks[i := Outcome(c, i)]
    else tasks[i := Skipped]
  }

  predicate FailedAfter(tasks: Tasks, i: nat, failed: bool, c: Command)
    requires Executes(c) && i < |tasks|
  {
    failed || (Runs(tasks, i, failed, c) && c.codes(i) != 0)
  }

  function TaskSteps(tasks: Tasks, i: nat, failed: bool, c: Command): seq<Step>
    requires Executes(c) && i < |tasks|
  {
    if Runs(tasks, i, failed, c)
      then [Persist(tasks[i := Running]), Execute(i), Persist(AfterTask(tasks, i, failed, c))] else []
  }

  /** The steps from task `i` on. */
  function StepsFrom(tasks: Tasks, i: nat, failed: bool, c: Command): seq<Step>
    requires Executes(c)
    decreases |tasks| - i
  {
    if i >= |tasks| then []
    else TaskSteps(tasks, i, failed, c)
         + StepsFrom(AfterTask(tasks, i, failed, c), i + 1, FailedAfter(tasks, i, failed, c), c)
  }

  /** The statuses that they end with. */
  function FinalFrom(tasks: Tasks, i: nat, failed: bool, c: Command): (r: Tasks)
    requires Executes(c)
    ensures |r| == |tasks|
    decreases |tasks| - i
  {
    if i >= |tasks| then tasks
    else FinalFrom(AfterTask(tasks, i, failed, c), i + 1, FailedAfter(tasks, i, failed, c), c)
  }

  /** A task found running was cut off by a crash. */
  function Recovered(tasks: Tasks): (r: Tasks)
    ensures |r| == |tasks| && forall i :: 0 <= i < |r| ==> r[i] == if tasks[i] == Running then Pending else tasks[i]
  {
    seq(|tasks|, i requires 0 <= i < |tasks| => if tasks[i] == Running then Pending else tasks[i])
  }

  function Repeat(s: Status, n: nat): (r: Tasks)
    ensures |r| == n && forall i :: 0 <= i < n ==> r[i] == s
  {
    seq(n, _ => s)
  }

  /** Whether the command gets past its checks. */
  predicate Accepted(c: Command, disk: Option<Tasks>) {
    match c
    case Plan(count) => count > 0
    case Run(count, _, _) => count > 0
    case Resume(_, _) => disk.Some?
    case Rerun(task, _, _) => disk.Some? && task < |disk.value|
    case Mark(task, status) => disk.Some? && task < |disk.value| && status in {Blocked, NeedsReview}
  }

  /** What the selection starts from. */
  function StartOf(c: Command, disk: Option<Tasks>): Tasks
    requires Executes(c) && Accepted(c, disk)
  {
    if c.Run? then Repeat(Pending, c.count) else Recovered(disk.value)
  }

  function FinalOf(c: Command, disk: Option<Tasks>): Tasks
    requires Executes(c) && Accepted(c, disk)
  {
    FinalFrom(StartOf(c, disk), 0, false, c)
  }

  /** All steps of a command that is not interrupted. */
  function StepsOf(c: Command, disk: Option<Tasks>): seq<Step> {
    if !Accepted(c, disk) then []
    else
      match c
      case Plan(count) => [Persist(Repeat(Planned, count))]
      case Mark(task, status) => [Persist(disk.value[task := status])]
      case _ =>
        var start := StartOf(c, disk);
        [Persist(start)] + StepsFrom(start, 0, false, c) + [Persist(FinalFrom(start, 0, false, c))]
  }

  // ------------------------------------------------------------------ the runner

  class Runner {
    var disk: Option<Tasks>
    ghost var steps: seq<Step>

    method PersistSummary(tasks: Tasks)
      modifies this
      ensures disk == Some(tasks) && steps == old(steps) + [Persist(tasks)]
    {
      disk := Some(tasks);
      steps := steps + [Persist(tasks)];
    }

    method RunTask(i: nat, c: Command) returns (exitCode: int)
      requires Executes(c)
      modifies this`steps
      ensures exitCode == c.codes(i) && steps == old(steps) + [Execute(i)]
    {
      steps := steps + [Execute(i)];
      exitCode := c.codes(i);
    }

    /** `runSelectedTasks`. */
    method RunSelectedTasks(start: Tasks, c: Command) returns (tasks: Tasks)
      requires Executes(c)
      modifies this
      ensures tasks == FinalFrom(start, 0, false, c)
      ensures steps == old(steps) + StepsFrom(start, 0, false, c)
    {
      tasks := start;
      var failed := false;
      ghost var before := steps;
      assert steps + StepsFrom(start, 0, false, c) == before + StepsFrom(start, 0, false, c);
      for i := 0 to |start|
        invariant |tasks| == |start|
        invariant FinalFrom(tasks, i, failed, c) == FinalFrom(start, 0, false, c)
        invariant steps + StepsFrom(tasks, i, failed, c) == before + StepsFrom(start, 0, false, c)
      {
        StepTask(steps, tasks, i, failed, c);
        if Selected(c, i, tasks[i]) {
          if failed && !c.continueOnError {
            tasks := tasks[i := Skipped];
          } else {
            ghost var done := AfterTask(tasks, i, failed, c);
            tasks := tasks[i := Running];
            PersistSummary(tasks);
            var exitCode := RunTask(i, c);
            tasks := tasks[i := if exitCode == 0 then Passed else Failed];
            failed := failed || exitCode != 0;
            assert tasks == done;
            PersistSummary(tasks);
          }
        }
      }
      assert steps + [] == steps;
    }

    /** `mission run`, `mission resume` and `mission rerun`. */
    method Perform(c: Command) returns (ok: bool)
      requires Executes(c)
      modifies this
      ensures ok == Accepted(c, old(disk)) && steps == old(steps) + StepsOf(c, old(disk))
      ensures disk == if ok then Some(FinalOf(c, old(disk))) else old(disk)
    {
      ok := Accepted(c, disk);
      if ok {
        var tasks := StartOf(c, disk);
        PersistSummary(tasks);
        tasks := RunSelectedTasks(tasks, c);
        PersistSummary(tasks);
      }
    }

    /** `mission plan` and `mission mark`. */
    method Note(c: Command) returns (ok: bool)
      requires !Executes(c)
      modifies this
      ensures ok == Accepted(c, old(disk)) && steps == old(steps) + StepsOf(c, old(disk))
      ensures disk == if !ok then old(disk)
                      else if c.Plan? then Some(Repeat(Planned, c.count)) else Some(old(disk).value[c.task := c.status])
    {
      ok := Accepted(c, disk);
      if ok {
        var tasks := if c.Plan? then Repeat(Planned, c.count) else disk.value[c.task := c.status];
        PersistSummary(tasks);
      }
    }
  }

  /** One turn of the loop, seen in the steps. */
  lemma StepTask(steps: seq<Step>, tasks: Tasks, i: nat, failed: bool, c: Command)
    requires Executes(c) && i < |tasks|
    ensures var rest := StepsFrom(AfterTask(tasks, i, failed, c), i + 1, FailedAfter(tasks, i, failed, c), c);
            && steps + StepsFrom(tasks, i, failed, c) == (steps + TaskSteps(tasks, i, failed, c)) + rest
            && (Runs(tasks, i, failed, c) ==>
                 steps + TaskSteps(tasks, i, failed, c) ==
                 steps + [Persist(tasks[i := Running])] + [Execute(i)] + [Persist(AfterTask(tasks, i, failed, c))])
            && (!Runs(tasks, i, failed, c) ==> steps + TaskSteps(tasks, i, failed, c) == steps)
  {
  }

  // ------------------------------------------------------------------ counts and status

  function Count(tasks: Tasks, s: Status): nat {
    if tasks == [] then 0 else (if tasks[0] == s then 1 else 0) + Count(tasks[1..], s)
  }

  /** The sum of the six counts of `missionCounts`. */
  function SixCounts(tasks: Tasks): nat {
    Count(tasks, Planned) + Count(tasks, Passed) + Count(tasks, Failed) + Count(tasks, Skipped)
      + Count(tasks, Blocked) + Count(tasks, NeedsReview)
  }

  datatype MissionStatus = MissionPlanned | MissionRunning | MissionPassed | MissionFailed | MissionBlocked
    | MissionNeedsReview

  /** `missionStatus`. */
  function StatusOf(tasks: Tasks): MissionStatus {
    if Running in tasks then MissionRunning
    else if Blocked in tasks then MissionBlocked
    else if NeedsReview in tasks then MissionNeedsReview
    else if Failed in tasks then MissionFailed
    else if |tasks| > 0 && forall s :: s in tasks ==> s == Passed then MissionPassed
    else MissionPlanned
  }

  /** The six counts sum to the total exactly when no task is pending or running. */
  lemma {:induction false} CountsSumToTotal(tasks: Tasks)
    ensures SixCounts(tasks) <= |tasks|
    ensures SixCounts(tasks) == |tasks| <==> Pending !in tasks && Running !in tasks
  {
    if tasks != [] {
      CountsSumToTotal(tasks[1..]);
      assert tasks == [tasks[0]] + tasks[1..];
    }
  }

  // ------------------------------------------------------------------ how a completed command ends

  /** The first selected task from `i` on whose run fails, or the end. */
  function FirstFailure(start: Tasks, i: nat, c: Command): (k: nat)
    requires Executes(c)
    ensures k < |start| ==> i <= k && Selected(c, k, start[k]) && c.codes(k) != 0
    ensures forall l :: i <= l < k && l < |start| && Selected(c, l, start[l]) ==> c.codes(l) == 0
    decreases |start| - i
  {
    if i >= |start| then |start|
    else if Selected(c, i, start[i]) && c.codes(i) != 0 then i
    else FirstFailure(start, i + 1, c)
  }

  lemma {:induction false} SameFirstFailure(a: Tasks, b: Tasks, i: nat, c: Command)
    requires Executes(c) && |a| == |b| && forall k :: i <= k < |a| ==> a[k] == b[k]
    ensures FirstFailure(a, i, c) == FirstFailure(b, i, c)
    decreases |a| - i
  {
    if i < |a| {
      SameFirstFailure(a, b, i + 1, c);
    }
  }

  lemma NextFailure(tasks: Tasks, i: nat, failed: bool, c: Command)
    requires Executes(c) && i < |tasks|
    ensures var next := FirstFailure(AfterTask(tasks, i, failed, c), i + 1, c);
            FirstFailure(tasks, i, c) == if Selected(c, i, tasks[i]) && c.codes(i) != 0 then i else next
  {
    SameFirstFailure(tasks, AfterTask(tasks, i, failed, c), i + 1, c);
  }

  /** The end of one task, in terms of where the first failure is. */
  function EndOf(start: Tasks, k: nat, i: nat, failed: bool, c: Command): Status
    requires Executes(c) && k < |start|
  {
    if k < i || !Selected(c, k, start[k]) then start[k]
    else if c.continueOnError || (!failed && k <= FirstFailure(start, i, c)) then Outcome(c, k)
    else Skipped
  }

  lemma {:induction false} FinalIs(tasks: Tasks, i: nat, failed: bool, c: Command, k: nat)
    requires Executes(c) && k < |tasks|
    ensures FinalFrom(tasks, i, failed, c)[k] == EndOf(tasks, k, i, failed, c)
    decreases |tasks| - i
  {
    if i < |tasks| {
      var after, stops := AfterTask(tasks, i, failed, c), FailedAfter(tasks, i, failed, c);
      NextFailure(tasks, i, failed, c);
      FinalIs(after, i + 1, stops, c, k);
    }
  }

  /** A completed command leaves the unselected tasks as they were, and the selected ones as passes up to the first
      failure, that failure, and then skips; with `--continue-on-error` as passes and failures. */
  lemma CompletedCommandEnds(c: Command, disk: Option<Tasks>, k: nat)
    requires Executes(c) && Accepted(c, disk) && k < |StartOf(c, disk)|
    ensures var start, final := StartOf(c, disk), FinalOf(c, disk);
            var first := FirstFailure(start, 0, c);
            && (!Selected(c, k, start[k]) ==> final[k] == start[k])
            && (Selected(c, k, start[k]) ==>
                 if c.continueOnError then final[k] == Outcome(c, k)
                 else final[k] == if k < first then Passed else if k == first then Failed else Skipped)
  {
    FinalIs(StartOf(c, disk), 0, false, c, k);
  }

  /** A completed resume leaves nothing pending, running or planned, with `--continue-on-error` nothing skipped either,
      and like a completed run it makes the six counts sum to the total. */
  lemma CompletedRunIsAccounted(c: Command, disk: Option<Tasks>)
    requires (c.Run? || c.Resume?) && Accepted(c, disk)
    ensures var final := FinalOf(c, disk);
            && (forall s :: s in final ==> s !in {Pending, Running, Planned})
            && (c.continueOnError ==> Skipped !in final)
            && SixCounts(final) == |final| && StatusOf(final) != MissionRunning
  {
    var start, final := StartOf(c, disk), FinalOf(c, disk);
    forall k | 0 <= k < |final|
      ensures final[k] !in {Pending, Running, Planned} && (c.continueOnError ==> final[k] != Skipped)
    {
      CompletedCommandEnds(c, disk, k);
    }
    CountsSumToTotal(final);
  }

  /** A rerun touches one task only, so that its counts sum to the total exactly when no other task was waiting. */
  lemma CompletedRerunIsAccounted(c: Command, disk: Option<Tasks>)
    requires c.Rerun? && Accepted(c, disk)
    ensures var final := FinalOf(c, disk);
            && final == Recovered(disk.value)[c.task := Outcome(c, c.task)]
            && (SixCounts(final) == |final| <==>
                 forall k :: 0 <= k < |disk.value| && k != c.task ==> disk.value[k] !in {Pending, Running})
  {
    var start, final := StartOf(c, disk), FinalOf(c, disk);
    forall k | 0 <= k < |final| ensures final[k] == if k == c.task then Outcome(c, k) else start[k] {
      CompletedCommandEnds(c, disk, k);
    }
    CountsSumToTotal(final);
    forall k | 0 <= k < |final| ensures final[k] in final {
    }
    assert Pending in final || Running in final ==> exists k :: 0 <= k < |final| && final[k] in {Pending, Running};
  }

  // ------------------------------------------------------------------ crashes

  /** What is on disk, and which tasks have been executed. */
  datatype World = World(disk: Option<Tasks>, executed: seq<nat>)

  function Happen(w: World, steps: seq<Step>): World
    decreases |steps|
  {
    if steps == [] then w
    else
      match steps[0]
      case Persist(tasks) => Happen(w.(disk := Some(tasks)), steps[1..])
      case Execute(i) => Happen(w.(executed := w.executed + [i]), steps[1..])
  }

  /** A command that a crash may cut off after any number of steps. */
  datatype Event = Event(command: Command, cut: nat)

  function Live(w: World, events: seq<Event>): World
    decreases |events|
  {
    if events == [] then w
    else
      var steps := StepsOf(events[0].command, w.disk);
      var cut := events[0].cut;
      Live(Happen(w, if cut < |steps| then steps[..cut] else steps), events[1..])
  }

  /** A task that resumes leave alone. */
  predicate SettledAt(disk: Option<Tasks>, k: nat) { disk.Some? && k < |disk.value| && Settled(disk.value[k]) }

  /** Commands that do not start over and do not ask for the task by name. */
  predicate Spares(c: Command, k: nat) { c.Resume? || c.Mark? || (c.Rerun? && c.task != k) }

  /** The steps of a sparing command keep the task settled on disk and never execute it. */
  ghost predicate StepsSpare(steps: seq<Step>, k: nat) {
    forall s :: s in steps ==> if s.Persist? then SettledAt(Some(s.tasks), k) else s.task != k
  }

  lemma {:induction false} LoopSpares(tasks: Tasks, i: nat, failed: bool, c: Command, k: nat)
    requires Executes(c) && Spares(c, k) && SettledAt(Some(tasks), k)
    ensures StepsSpare(StepsFrom(tasks, i, failed, c), k) && SettledAt(Some(FinalFrom(tasks, i, failed, c)), k)
    decreases |tasks| - i
  {
    if i < |tasks| {
      LoopSpares(AfterTask(tasks, i, failed, c), i + 1, FailedAfter(tasks, i, failed, c), c, k);
    }
  }

  lemma CommandSpares(c: Command, disk: Option<Tasks>, k: nat)
    requires Spares(c, k) && SettledAt(disk, k)
    ensures StepsSpare(StepsOf(c, disk), k)
  {
    if Accepted(c, disk) && Executes(c) {
      LoopSpares(StartOf(c, disk), 0, false, c, k);
    }
  }

  lemma {:induction false} HappenSpares(w: World, steps: seq<Step>, k: nat)
    requires StepsSpare(steps, k) && SettledAt(w.disk, k)
    ensures var v := Happen(w, steps);
            SettledAt(v.disk, k) && w.executed <= v.executed && k !in v.executed[|w.executed|..]
    decreases |steps|
  {
    if steps != [] {
      assert steps[0] in steps;
      var next := if steps[0].Persist? then w.(disk := Some(steps[0].tasks))
          else w.(executed := w.executed + [steps[0].task]);
      HappenSpares(next, steps[1..], k);
    }
  }

  /** Once a pass is on disk, no number of resumes, marks and reruns of other tasks, each cut off anywhere, executes the
      task again. */
  lemma {:induction false} PassedIsNeverExecutedAgain(w: World, events: seq<Event>, k: nat)
    requires SettledAt(w.disk, k) && forall i :: 0 <= i < |events| ==> Spares(events[i].command, k)
    ensures var v := Live(w, events);
            SettledAt(v.disk, k) && w.executed <= v.executed && k !in v.executed[|w.executed|..]
    decreases |events|
  {
    if events != [] {
      var steps := StepsOf(events[0].command, w.disk);
      var cut := if events[0].cut < |steps| then steps[..events[0].cut] else steps;
      CommandSpares(events[0].command, w.disk, k);
      HappenSpares(w, cut, k);
      var next := Happen(w, cut);
      PassedIsNeverExecutedAgain(next, events[1..], k);
      StillSpared(w.executed, next.executed, Live(w, events).executed, k);
    }
  }

  lemma StillSpared(a: seq<nat>, b: seq<nat>, c: seq<nat>, k: nat)
    requires a <= b && b <= c && k !in b[|a|..] && k !in c[|b|..]
    ensures a <= c && k !in c[|a|..]
  {
    assert c[|a|..] == b[|a|..] + c[|b|..];
  }

  /** A run of two tasks is cut off right after its first summary: a rerun of the first leaves the second uncounted. */
  lemma RerunLeavesTasksUncounted()
    ensures var crashed := Live(World(None, []), [Event(Run(2, false, _ => 0), 1)]);
            && crashed.disk == Some([Pending, Pending])
            && var final := FinalOf(Rerun(0, false, _ => 0), crashed.disk);
               final == [Passed, Pending] && SixCounts(final) == 1
  {
    var start := [Pending, Pending];
    assert Repeat(Pending, 2) == start;
    CutAfterFirstSummary(Run(2, false, _ => 0));
    CompletedRerunIsAccounted(Rerun(0, false, _ => 0), Some(start));
    assert Recovered(start)[0 := Passed] == [Passed, Pending];
    TwoCounts();
  }

  lemma CutAfterFirstSummary(c: Command)
    requires c.Run? && c.count > 0
    ensures Live(World(None, []), [Event(c, 1)]).disk == Some(Repeat(Pending, c.count))
  {
    var start, steps := StartOf(c, None), StepsOf(c, None);
    assert steps[..1] == [Persist(start)] && [Persist(start)][1..] == [];
    assert Happen(World(None, []), [Persist(start)]) == World(Some(start), []);
    assert [Event(c, 1)][1..] == [];
  }

  lemma TwoCounts()
    ensures SixCounts([Passed, Pending]) == 1
  {
    var tasks := [Passed, Pending];
    assert tasks[1..] == [Pending] && [Pending][1..] == [];
  }

  // ------------------------------------------------------------------ commands that do execute a passed task again

  predicate ExecutedIn(steps: seq<Step>, k: nat) { Execute(k) in steps }

  lemma TaskExecutes(tasks: Tasks, i: nat, failed: bool, c: Command, k: nat)
    requires Executes(c) && i < |tasks|
    ensures ExecutedIn(TaskSteps(tasks, i, failed, c), k) <==> k == i && Runs(tasks, i, failed, c)
  {
  }

  /** Which tasks the selection executes. */
  lemma {:induction false} LoopExecutes(tasks: Tasks, i: nat, failed: bool, c: Command, k: nat)
    requires Executes(c)
    ensures ExecutedIn(StepsFrom(tasks, i, failed, c), k) <==>
              && i <= k < |tasks| && Selected(c, k, tasks[k])
              && (c.continueOnError || (!failed && k <= FirstFailure(tasks, i, c)))
    decreases |tasks| - i
  {
    if i < |tasks| {
      var after, stops := AfterTask(tasks, i, failed, c), FailedAfter(tasks, i, failed, c);
      NextFailure(tasks, i, failed, c);
      LoopExecutes(after, i + 1, stops, c, k);
      TaskExecutes(tasks, i, failed, c, k);
      InSum(Execute(k), TaskSteps(tasks, i, failed, c), StepsFrom(after, i + 1, stops, c));
    }
  }

  lemma InSum(x: Step, a: seq<Step>, b: seq<Step>)
    ensures x in a + b <==> x in a || x in b
  {
  }

  /** A task that passed is executed again exactly by a rerun of it, and by a fresh run that gets as far. */
  lemma PassedIsExecutedAgainBy(c: Command, disk: Option<Tasks>, k: nat)
    requires Accepted(c, disk) && disk.Some? && k < |disk.value| && disk.value[k] == Passed
    ensures ExecutedIn(StepsOf(c, disk), k) <==>
              || (c.Rerun? && c.task == k)
              || (c.Run? && k < c.count && (c.continueOnError || k <= FirstFailure(StartOf(c, disk), 0, c)))
  {
    if Executes(c) {
      var start := StartOf(c, disk);
      LoopExecutes(start, 0, false, c, k);
      var loop := StepsFrom(start, 0, false, c);
      assert StepsOf(c, disk) == [Persist(start)] + loop + [Persist(FinalFrom(start, 0, false, c))];
      if c.Rerun? && c.task == k {
        FirstFailureOfOne(start, 0, c);
      }
    }
  }

  lemma {:induction false} FirstFailureOfOne(start: Tasks, i: nat, c: Command)
    requires c.Rerun? && i <= c.task < |start|
    ensures c.task <= FirstFailure(start, i, c)
    decreases |start| - i
  {
    if i < c.task {
      FirstFailureOfOne(start, i + 1, c);
    }
  }

  /** Planning again forgets what passed, so that a later resume starts over. */
  lemma PlanForgets(disk: Option<Tasks>, codes: nat -> int)
    ensures var planned := Happen(World(disk, []), StepsOf(Plan(1), disk));
            && planned.disk == Some([Planned])
            && ExecutedIn(StepsOf(Resume(false, codes), planned.disk), 0)
  {
    var planned := Repeat(Planned, 1);
    assert planned == [Planned];
    assert StepsOf(Plan(1), disk) == [Persist([Planned])] && [Persist([Planned])][1..] == [];
    var c := Resume(false, codes);
    LoopExecutes(StartOf(c, Some([Planned])), 0, false, c, 0);
  }

  // ------------------------------------------------------------------ what a command does, in its own terms

  lemma FirstFailureIs(start: Tasks, c: Command, k: nat)
    requires Executes(c) && k < |start|
    ensures k <= FirstFailure(start, 0, c) <==> forall j :: 0 <= j < k && Selected(c, j, start[j]) ==> c.codes(j) == 0
  {
  }

  /** A resume executes exactly the tasks that are not passed, blocked or waiting for review, and without
      `--continue-on-error` only up to the first of them that fails; a fresh run does the same with every task; a rerun
      executes the one that it names. */
  lemma ExecutesExactly(c: Command, disk: Option<Tasks>, k: nat)
    requires Executes(c) && Accepted(c, disk)
    ensures ExecutedIn(StepsOf(c, disk), k) <==>
              match c
              case Run(count, continueOnError, codes) =>
                k < count && (continueOnError || forall j :: 0 <= j < k ==> codes(j) == 0)
              case Resume(continueOnError, codes) =>
                && k < |disk.value| && disk.value[k] !in {Passed, Blocked, NeedsReview}
                && (continueOnError
                    || forall j :: 0 <= j < k && disk.value[j] !in {Passed, Blocked, NeedsReview} ==> codes(j) == 0)
              case Rerun(task, _, _) => k == task
  {
    var start := StartOf(c, disk);
    var loop := StepsFrom(start, 0, false, c);
    assert StepsOf(c, disk) == [Persist(start)] + loop + [Persist(FinalFrom(start, 0, false, c))];
    LoopExecutes(start, 0, false, c, k);
    if k < |start| {
      FirstFailureIs(start, c, k);
    }
  }

  /** What a task ends with: its outcome when it is executed, a skip when a failure came first, otherwise what it
      was. */
  lemma EndsExactly(c: Command, disk: Option<Tasks>, k: nat)
    requires Executes(c) && Accepted(c, disk) && k < |FinalOf(c, disk)|
    ensures var outcome := if c.codes(k) == 0 then Passed else Failed;
            FinalOf(c, disk)[k] ==
              match c
              case Run(_, continueOnError, codes) =>
                if continueOnError || forall j :: 0 <= j < k ==> codes(j) == 0 then outcome else Skipped
              case Resume(continueOnError, codes) =>
                if disk.value[k] in {Passed, Blocked, NeedsReview} then disk.value[k]
                else if continueOnError
                     || forall j :: 0 <= j < k && disk.value[j] !in {Passed, Blocked, NeedsReview} ==> codes(j) == 0
                then outcome
                else Skipped
              case Rerun(task, _, _) =>
                if k == task then outcome else if disk.value[k] == Running then Pending else disk.value[k]
  {
    CompletedCommandEnds(c, disk, k);
    FirstFailureIs(StartOf(c, disk), c, k);
    if c.Rerun? && c.task == k {
      FirstFailureOfOne(StartOf(c, disk), 0, c);
    }
  }

  /** A completed run has passed when every task exits 0, and has failed otherwise. */
  lemma RunStatus(c: Command, disk: Option<Tasks>)
    requires c.Run? && Accepted(c, disk)
    ensures StatusOf(FinalOf(c, disk)) == if forall k :: 0 <= k < c.count ==> c.codes(k) == 0 then MissionPassed
              else MissionFailed
  {
    var final := FinalOf(c, disk);
    var first := FirstFailure(StartOf(c, disk), 0, c);
    forall k | 0 <= k < |final|
      ensures final[k] in {Passed, Failed, Skipped} && (first >= c.count ==> final[k] == Passed)
    {
      EndsExactly(c, disk, k);
    }
    if first < c.count {
      EndsExactly(c, disk, first);
      assert final[first] in final;
    } else {
      assert final[0] in final;
    }
  }

  lemma SameStatusIn(a: Tasks, b: Tasks, s: Status)
    requires |a| == |b| && forall k :: 0 <= k < |a| ==> (b[k] == s <==> a[k] == s)
    ensures s in a <==> s in b
  {
    if s in a {
      var k :| 0 <= k < |a| && a[k] == s;
      assert b[k] == s;
    }
  }

  lemma ResumeEnd(c: Command, disk: Option<Tasks>, k: nat)
    requires c.Resume? && Accepted(c, disk) && k < |disk.value|
    ensures var end, was := FinalOf(c, disk)[k], disk.value[k];
            && end in {Passed, Failed, Skipped, Blocked, NeedsReview}
            && (end == Blocked <==> was == Blocked) && (end == NeedsReview <==> was == NeedsReview)
            && (FirstFailure(StartOf(c, disk), 0, c) >= |disk.value| && was !in {Blocked, NeedsReview} ==>
                 end == Passed)
            && (FirstFailure(StartOf(c, disk), 0, c) == k ==> end == Failed)
  {
    CompletedCommandEnds(c, disk, k);
  }

  lemma StatusOfEnds(tasks: Tasks, final: Tasks, failing: bool)
    requires |tasks| == |final|
    requires forall k :: 0 <= k < |final| ==> final[k] in {Passed, Failed, Skipped, Blocked, NeedsReview}
    requires forall k :: 0 <= k < |final| ==> (final[k] == Blocked <==> tasks[k] == Blocked)
    requires forall k :: 0 <= k < |final| ==> (final[k] == NeedsReview <==> tasks[k] == NeedsReview)
    requires failing ==> Failed in final
    requires !failing ==> forall k :: 0 <= k < |final| && tasks[k] !in {Blocked, NeedsReview} ==> final[k] == Passed
    ensures StatusOf(final) ==
              if Blocked in tasks then MissionBlocked
              else if NeedsReview in tasks then MissionNeedsReview
              else if failing then MissionFailed
              else if tasks != [] then MissionPassed
              else MissionPlanned
  {
    SameStatusIn(tasks, final, Blocked);
    SameStatusIn(tasks, final, NeedsReview);
    if !failing && final != [] {
      assert final[0] in final;
    }
  }

  /** A completed resume leaves the mission blocked while a task is blocked, then in review while one waits for it;
      otherwise it has failed when a task that was executed fails, and has passed when there is one and none fails. */
  lemma ResumeStatus(c: Command, disk: Option<Tasks>)
    requires c.Resume? && Accepted(c, disk)
    ensures StatusOf(FinalOf(c, disk)) ==
              if Blocked in disk.value then MissionBlocked
              else if NeedsReview in disk.value then MissionNeedsReview
              else if exists k :: 0 <= k < |disk.value| && disk.value[k] != Passed && c.codes(k) != 0 then MissionFailed
              else if disk.value != [] then MissionPassed
              else MissionPlanned
  {
    var tasks, final := disk.value, FinalOf(c, disk);
    var first := FirstFailure(StartOf(c, disk), 0, c);
    forall k | 0 <= k < |final|
      ensures final[k] in {Passed, Failed, Skipped, Blocked, NeedsReview}
      ensures (final[k] == Blocked <==> tasks[k] == Blocked) && (final[k] == NeedsReview <==> tasks[k] == NeedsReview)
      ensures first >= |tasks| && tasks[k] !in {Blocked, NeedsReview} ==> final[k] == Passed
      ensures first == k ==> final[k] == Failed
    {
      ResumeEnd(c, disk, k);
    }
    StatusOfEnds(tasks, final, first < |tasks|);
    if Blocked !in tasks && NeedsReview !in tasks {
      ResumeFailsExactlyWhen(c, disk);
    }
  }

  lemma ResumeFailsExactlyWhen(c: Command, disk: Option<Tasks>)
    requires c.Resume? && Accepted(c, disk) && Blocked !in disk.value && NeedsReview !in disk.value
    ensures FirstFailure(StartOf(c, disk), 0, c) < |disk.value| <==>
              exists k :: 0 <= k < |disk.value| && disk.value[k] != Passed && c.codes(k) != 0
  {
    var first := FirstFailure(StartOf(c, disk), 0, c);
    if first < |disk.value| {
      assert disk.value[first] != Passed && c.codes(first) != 0;
    }
    if k :| 0 <= k < |disk.value| && disk.value[k] != Passed && c.codes(k) != 0 {
      assert disk.value[k] in disk.value && Selected(c, k, StartOf(c, disk)[k]);
    }
  }

  /** A refused command takes no step: one without a task in its file or without a summary on disk, one that names a
      task that is not there, and a mark with a status that cannot be set. */
  lemma RefusedExactlyWhen(c: Command, disk: Option<Tasks>)
    ensures StepsOf(c, disk) == [] <==>
              || ((c.Plan? || c.Run?) && c.count == 0)
              || ((c.Resume? || c.Rerun? || c.Mark?) && disk == None)
              || ((c.Rerun? || c.Mark?) && disk.Some? && c.task >= |disk.value|)
              || (c.Mark? && c.status !in {Blocked, NeedsReview})
  {
  }

  /** The task at this step was written down as running just before, and with its outcome just after. */
  ghost predicate Recorded(steps: seq<Step>, p: nat, c: Command)
    requires Executes(c) && p < |steps| && steps[p].Execute?
  {
    var k := steps[p].task;
    && p > 0 && steps[p - 1].Persist? && k < |steps[p - 1].tasks| && steps[p - 1].tasks[k] == Running
    && p + 1 < |steps| && steps[p + 1].Persist?
    && steps[p + 1].tasks == steps[p - 1].tasks[k := if c.codes(k) == 0 then Passed else Failed]
  }

  ghost predicate AllRecorded(steps: seq<Step>, c: Command)
    requires Executes(c)
  {
    forall p :: 0 <= p < |steps| && steps[p].Execute? ==> Recorded(steps, p, c)
  }

  /** Every executed task comes from `i` on, each once and in their order. */
  ghost predicate InOrder(steps: seq<Step>, i: nat) {
    && (forall p :: 0 <= p < |steps| && steps[p].Execute? ==> i <= steps[p].task)
    && (forall p, q :: 0 <= p < q < |steps| && steps[p].Execute? && steps[q].Execute? ==> steps[p].task < steps[q].task)
  }

  lemma RecordedOfSum(a: seq<Step>, b: seq<Step>, c: Command)
    requires Executes(c) && AllRecorded(a, c) && AllRecorded(b, c)
    ensures AllRecorded(a + b, c)
  {
    var s := a + b;
    forall p | 0 <= p < |s| && s[p].Execute? ensures Recorded(s, p, c) {
      if p < |a| {
        assert a[p] == s[p] && Recorded(a, p, c);
      } else {
        assert b[p - |a|] == s[p] && Recorded(b, p - |a|, c);
      }
    }
  }

  lemma InOrderOfSum(a: seq<Step>, b: seq<Step>, i: nat, j: nat)
    requires InOrder(a, i) && InOrder(b, j) && i <= j && forall p :: 0 <= p < |a| && a[p].Execute? ==> a[p].task < j
    ensures InOrder(a + b, i)
  {
    var s := a + b;
    forall p | 0 <= p < |s| && s[p].Execute? ensures i <= s[p].task {
      assert s[p] == if p < |a| then a[p] else b[p - |a|];
    }
    forall p, q | 0 <= p < q < |s| && s[p].Execute? && s[q].Execute? ensures s[p].task < s[q].task {
      assert s[p] == if p < |a| then a[p] else b[p - |a|];
      assert s[q] == if q < |a| then a[q] else b[q - |a|];
    }
  }

  lemma WriteLast(steps: seq<Step>, tasks: Tasks, i: nat)
    requires InOrder(steps, i)
    ensures InOrder(steps + [Persist(tasks)], i)
  {
  }

  lemma TaskRecords(tasks: Tasks, i: nat, failed: bool, c: Command)
    requires Executes(c) && i < |tasks|
    ensures var steps := TaskSteps(tasks, i, failed, c);
            && AllRecorded(steps, c) && InOrder(steps, i)
            && forall p :: 0 <= p < |steps| && steps[p].Execute? ==> steps[p].task == i
  {
  }

  lemma {:induction false} LoopRecords(tasks: Tasks, i: nat, failed: bool, c: Command)
    requires Executes(c)
    ensures AllRecorded(StepsFrom(tasks, i, failed, c), c) && InOrder(StepsFrom(tasks, i, failed, c), i)
    decreases |tasks| - i
  {
    if i < |tasks| {
      var after, stops := AfterTask(tasks, i, failed, c), FailedAfter(tasks, i, failed, c);
      var now, later := TaskSteps(tasks, i, failed, c), StepsFrom(after, i + 1, stops, c);
      LoopRecords(after, i + 1, stops, c);
      TaskRecords(tasks, i, failed, c);
      RecordedOfSum(now, later, c);
      InOrderOfSum(now, later, i, i + 1);
    }
  }

  /** A command executes each task at most once, in the order of the list, and the summary says running before and the
      outcome after; the command ends by writing the summary. */
  lemma ExecutionIsRecorded(c: Command, disk: Option<Tasks>)
    requires Executes(c) && Accepted(c, disk)
    ensures var steps := StepsOf(c, disk);
            && AllRecorded(steps, c) && InOrder(steps, 0)
            && steps != [] && steps[|steps| - 1] == Persist(FinalOf(c, disk))
  {
    var start, final := StartOf(c, disk), FinalOf(c, disk);
    var loop := StepsFrom(start, 0, false, c);
    LoopRecords(start, 0, false, c);
    RecordedOfSum([Persist(start)], loop, c);
    RecordedOfSum([Persist(start)] + loop, [Persist(final)], c);
    InOrderOfSum([Persist(start)], loop, 0, 0);
    WriteLast([Persist(start)] + loop, final, 0);
  }
}
