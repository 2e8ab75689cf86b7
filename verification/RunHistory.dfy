/** One test inside whole runs of the engine: its store is its value history, so what fires in an
    iteration is decided by what its command answered in the iterations up to that one. */
module RunHistory {
  import opened Bytes
  import FieldParser
  import opened Verdict
  import opened ValueHistory
  import opened Schedule
  import ScheduleTheorems

  /** The test `key` is named by main command j, at position m of its list, and nowhere else. */
  ghost predicate NamedOnce(plan: Plan, key: Key, j: nat, m: nat)
  {
    key in plan.tests && key.cmd in plan.testedCommands
    && j < |plan.main| && m < |plan.main[j].spec.testIDs|
    && plan.main[j].spec.cmd == key.cmd && plan.main[j].spec.testIDs[m] == key.id
    && (forall k :: 0 <= k < |plan.main[j].spec.testIDs| && k != m ==> plan.main[j].spec.testIDs[k] != key.id)
    && (forall i :: 0 <= i < |plan.main| && i != j ==> !Names(plan, i, key))
  }

  predicate Names(plan: Plan, i: nat, key: Key)
    requires i < |plan.main|
  {
    plan.main[i].spec.cmd == key.cmd && key.id in plan.main[i].spec.testIDs
  }

  // ----- one list of tests

  /** The world after test `key` of the list was dealt with. */
  ghost function Tested(plan: Plan, script: Script, w: World, key: Key, results: seq<CmdResult>, iteration: nat): (r: World)
  {
    if key !in plan.tests then w
    else
      var evaluated := Evaluated(plan, w, key, results, iteration);
      if ScheduleTheorems.VerdictIn(plan, w, key, results, iteration) == Ok(true)
      then SendGroup(script, evaluated, plan.tests[key].ifTriggered, 0, false).world
      else evaluated
  }

  /** The list goes on behind its i-th test. */
  predicate GoesOn(plan: Plan, r: Step)
  {
    r.fault.None? && (Stops(plan) ==> r.fired == [])
  }

  lemma TestedStores(plan: Plan, script: Script, w: World, key: Key, results: seq<CmdResult>, iteration: nat, other: Key)
    ensures StoreOf(Tested(plan, script, w, key, results, iteration), other)
            == if other == key && key in plan.tests
               then StoreAfter(ContextIn(plan, w, key, iteration), StoreOf(w, key), results)
               else StoreOf(w, other)
  {
    hide StoreAfter, TestVerdict;
    if key in plan.tests {
      var evaluated := Evaluated(plan, w, key, results, iteration);
      ScheduleTheorems.SendGroupTrace(script, evaluated, plan.tests[key].ifTriggered, 0, false);
    }
  }

  lemma RunTestsStep(plan: Plan, script: Script, w: World, cmd: Text, ids: seq<int>, i: nat,
                     results: seq<CmdResult>, iteration: nat)
    requires i < |ids| && GoesOn(plan, RunTests(plan, script, w, cmd, ids, i, results, iteration))
    ensures var r := RunTests(plan, script, w, cmd, ids, i, results, iteration);
            var key := Key(cmd, ids[i]);
            var rest := RunTests(plan, script, Tested(plan, script, w, key, results, iteration), cmd, ids, i + 1, results, iteration);
            var fires := key in plan.tests && ScheduleTheorems.VerdictIn(plan, w, key, results, iteration) == Ok(true);
            r == rest.(fired := (if fires then [ids[i]] else []) + rest.fired) && GoesOn(plan, rest)
  {
    hide StoreAfter, TestVerdict, SendGroup;
  }

  /** A list that does not name the test leaves its store alone. */
  lemma {:induction false} OtherTests(plan: Plan, script: Script, w: World, cmd: Text, ids: seq<int>, i: nat,
                                      results: seq<CmdResult>, iteration: nat, key: Key)
    requires i <= |ids| && GoesOn(plan, RunTests(plan, script, w, cmd, ids, i, results, iteration))
    requires forall k :: i <= k < |ids| ==> Key(cmd, ids[k]) != key
    ensures StoreOf(RunTests(plan, script, w, cmd, ids, i, results, iteration).world, key) == StoreOf(w, key)
    decreases |ids| - i
  {
    if i < |ids| {
      RunTestsStep(plan, script, w, cmd, ids, i, results, iteration);
      TestedStores(plan, script, w, Key(cmd, ids[i]), results, iteration, key);
      hide RunTests, StoreOf, StoreAfter, TestVerdict;
      OtherTests(plan, script, Tested(plan, script, w, Key(cmd, ids[i]), results, iteration), cmd, ids, i + 1,
                 results, iteration, key);
    }
  }

  /** A list that names the test once runs it once, on the store it had, and without an error. */
  lemma {:induction false} OneTest(plan: Plan, script: Script, w: World, cmd: Text, ids: seq<int>, i: nat, m: nat,
                                   results: seq<CmdResult>, iteration: nat)
    requires i <= m < |ids| && GoesOn(plan, RunTests(plan, script, w, cmd, ids, i, results, iteration))
    requires Key(cmd, ids[m]) in plan.tests && forall k :: i <= k < |ids| && k != m ==> ids[k] != ids[m]
    ensures var key := Key(cmd, ids[m]);
            StoreOf(RunTests(plan, script, w, cmd, ids, i, results, iteration).world, key)
            == StoreAfter(ContextIn(plan, w, key, iteration), StoreOf(w, key), results)
    ensures ScheduleTheorems.VerdictIn(plan, w, Key(cmd, ids[m]), results, iteration).Ok?
    decreases |ids| - i
  {
    hide StoreAfter, TestVerdict;
    var key := Key(cmd, ids[m]);
    var first := Key(cmd, ids[i]);
    RunTestsStep(plan, script, w, cmd, ids, i, results, iteration);
    TestedStores(plan, script, w, first, results, iteration, key);
    var next := Tested(plan, script, w, first, results, iteration);
    if i == m {
      OtherTests(plan, script, next, cmd, ids, i + 1, results, iteration, key);
    } else {
      assert ContextIn(plan, next, key, iteration) == ContextIn(plan, w, key, iteration);
      OneTest(plan, script, next, cmd, ids, i + 1, m, results, iteration);
    }
  }

  // ----- the main group

  /** The world in which main command j of an iteration is sent, when nothing stopped it before. */
  ghost function WorldBefore(plan: Plan, script: Script, w: World, j: nat, iteration: nat): (r: World)
    requires j <= |plan.main|
  {
    if j == 0 then w else RunCommand(plan, script, WorldBefore(plan, script, w, j - 1, iteration), j - 1, iteration).world
  }

  /** What main command j is handed in an iteration that starts in w. */
  ghost function ResultsOf(plan: Plan, script: Script, w: World, j: nat, iteration: nat): (results: seq<CmdResult>)
    requires j < |plan.main|
  {
    Answer(script, WorldBefore(plan, script, w, j, iteration), Collects(plan) || plan.main[j].spec.processResult)
  }

  /** What main command j does in that iteration. */
  ghost function StepOf(plan: Plan, script: Script, w: World, j: nat, iteration: nat): (r: Step)
    requires j < |plan.main|
  {
    RunCommand(plan, script, WorldBefore(plan, script, w, j, iteration), j, iteration)
  }

  ghost predicate ReachesCommand(plan: Plan, script: Script, w: World, n: nat, iteration: nat)
    requires n <= |plan.main|
  {
    forall i :: 0 <= i < n ==> GoesOn(plan, StepOf(plan, script, w, i, iteration))
  }

  /** The recorded ids are those of the steps. */
  lemma {:induction false} RecordOfSteps(plan: Plan, script: Script, w: World, j: nat, n: nat, iteration: nat)
    requires j <= |plan.main| && ReachesCommand(plan, script, w, j, iteration)
    requires j <= n < j + |RunMain(plan, script, WorldBefore(plan, script, w, j, iteration), j, iteration).record|
    ensures n < |plan.main| && ReachesCommand(plan, script, w, n, iteration)
    ensures RunMain(plan, script, WorldBefore(plan, script, w, j, iteration), j, iteration).record[n - j]
            == StepOf(plan, script, w, n, iteration).fired
    ensures var g := RunMain(plan, script, WorldBefore(plan, script, w, j, iteration), j, iteration);
            g.fault.None? || n - j < |g.record| - 1 ==> StepOf(plan, script, w, n, iteration).fault.None?
    decreases n - j
  {
    hide RunCommand;
    var s := StepOf(plan, script, w, j, iteration);
    assert WorldBefore(plan, script, w, j + 1, iteration) == s.world;
    if j < n { RecordOfSteps(plan, script, w, j + 1, n, iteration); }
  }

  /** An iteration that is not the last of its run has carried out every step. */
  lemma {:induction false} CompleteGroup(plan: Plan, script: Script, w: World, j: nat, iteration: nat)
    requires j <= |plan.main| && ReachesCommand(plan, script, w, j, iteration)
    requires var g := RunMain(plan, script, WorldBefore(plan, script, w, j, iteration), j, iteration);
             g.fault.None? && (Stops(plan) ==> !Triggered(g.record))
    ensures ReachesCommand(plan, script, w, |plan.main|, iteration)
    ensures RunMain(plan, script, WorldBefore(plan, script, w, j, iteration), j, iteration).world
            == WorldBefore(plan, script, w, |plan.main|, iteration)
    decreases |plan.main| - j
  {
    hide RunCommand;
    if j < |plan.main| {
      var s := StepOf(plan, script, w, j, iteration);
      assert WorldBefore(plan, script, w, j + 1, iteration) == s.world;
      var g := RunMain(plan, script, WorldBefore(plan, script, w, j, iteration), j, iteration);
      assert g.record[0] == s.fired;
      if Stops(plan) {
        assert s.fired == [];
        var rest := RunMain(plan, script, s.world, j + 1, iteration);
        forall k | 0 <= k < |rest.record| ensures rest.record[k] == [] { assert g.record[k + 1] == rest.record[k]; }
      }
      CompleteGroup(plan, script, w, j + 1, iteration);
    }
  }

  /** A main command that does not name the test leaves its store alone. */
  lemma OtherCommand(plan: Plan, script: Script, w: World, j: nat, iteration: nat, key: Key)
    requires j < |plan.main| && GoesOn(plan, RunCommand(plan, script, w, j, iteration)) && !Names(plan, j, key)
    ensures StoreOf(RunCommand(plan, script, w, j, iteration).world, key) == StoreOf(w, key)
  {
    hide RunTests, StoreAfter;
    var command := plan.main[j].spec;
    var collect := Collects(plan) || command.processResult;
    var s := Send(script, w, command, collect);
    var results := Answer(script, w, collect);
    var matched := if collect then WithMatches(plan, s.world, j, results) else s.world;
    assert matched.stores == w.stores;
    if command.cmd in plan.testedCommands {
      OtherTests(plan, script, matched, command.cmd, command.testIDs, 0, results, iteration, key);
    }
  }

  /** The main command that names the test evaluates it once, on what it was answered. */
  lemma NamingCommand(plan: Plan, script: Script, w: World, j: nat, m: nat, iteration: nat, key: Key)
    requires NamedOnce(plan, key, j, m) && GoesOn(plan, RunCommand(plan, script, w, j, iteration))
    ensures StoreOf(RunCommand(plan, script, w, j, iteration).world, key)
            == StoreAfter(ContextIn(plan, w, key, iteration), StoreOf(w, key),
                          Answer(script, w, Collects(plan) || plan.main[j].spec.processResult))
    ensures TestVerdict(ContextIn(plan, w, key, iteration),
                        Answer(script, w, Collects(plan) || plan.main[j].spec.processResult)).Ok?
  {
    hide RunTests, StoreAfter, TestVerdict;
    var command := plan.main[j].spec;
    var collect := Collects(plan) || command.processResult;
    var s := Send(script, w, command, collect);
    var results := Answer(script, w, collect);
    var matched := if collect then WithMatches(plan, s.world, j, results) else s.world;
    assert matched.stores == w.stores;
    NamedThere(plan, key, j, m);
    assert ContextIn(plan, matched, key, iteration) == ContextIn(plan, w, key, iteration);
    OneTest(plan, script, matched, command.cmd, command.testIDs, 0, m, results, iteration);
  }

  lemma NamedThere(plan: Plan, key: Key, j: nat, m: nat)
    requires NamedOnce(plan, key, j, m)
    ensures j < |plan.main|
    ensures var ids := plan.main[j].spec.testIDs;
            key in plan.tests && key.cmd in plan.testedCommands && m < |ids| && key == Key(plan.main[j].spec.cmd, ids[m])
            && forall k :: 0 <= k < |ids| && k != m ==> ids[k] != ids[m]
    ensures forall i :: 0 <= i < |plan.main| && i != j ==> !Names(plan, i, key)
  {
  }

  /** The store of the test as the main group goes on: unchanged up to its command, and its own
      store after one evaluation from then on. */
  lemma {:induction false} GroupStores(plan: Plan, script: Script, w: World, key: Key, j: nat, m: nat, n: nat, iteration: nat)
    requires NamedOnce(plan, key, j, m) && n <= |plan.main| && ReachesCommand(plan, script, w, n, iteration)
    ensures StoreOf(WorldBefore(plan, script, w, n, iteration), key)
            == if n <= j then StoreOf(w, key)
               else StoreAfter(ContextIn(plan, w, key, iteration), StoreOf(w, key), ResultsOf(plan, script, w, j, iteration))
  {
    hide RunCommand, StoreAfter, StoreOf, NamedOnce, Answer;
    NamedThere(plan, key, j, m);
    if n > 0 {
      GroupStores(plan, script, w, key, j, m, n - 1, iteration);
      assert GoesOn(plan, StepOf(plan, script, w, n - 1, iteration));
      if n - 1 == j {
        NamingCommand(plan, script, WorldBefore(plan, script, w, j, iteration), j, m, iteration, key);
      } else {
        OtherCommand(plan, script, WorldBefore(plan, script, w, n - 1, iteration), n - 1, iteration, key);
      }
    }
  }

  // ----- the whole run

  /** The world in which iteration n starts, when nothing ended the run before. */
  ghost function WorldAt(plan: Plan, script: Script, w: World, n: nat): (r: World)
  {
    if n == 0 then w else Iterate(plan, script, WorldAt(plan, script, w, n - 1), n - 1).world
  }

  ghost predicate ReachesIteration(plan: Plan, script: Script, w: World, n: nat)
  {
    n <= Times(plan)
    && forall i :: 0 <= i < n ==>
         var step := Iterate(plan, script, WorldAt(plan, script, w, i), i);
         step.fault.None? && !step.last
  }

  /** What main command j is handed in the first n iterations. */
  ghost function ResultsUpTo(plan: Plan, script: Script, w: World, j: nat, n: nat): (run: seq<seq<CmdResult>>)
    requires j < |plan.main|
    ensures |run| == n
  {
    if n == 0 then []
    else ResultsUpTo(plan, script, w, j, n - 1) + [ResultsOf(plan, script, WorldAt(plan, script, w, n - 1), j, n - 1)]
  }

  /** The recorded iterations are the ones reached. */
  lemma {:induction false} RecordOfIterations(plan: Plan, script: Script, w: World, i: nat, n: nat)
    requires ReachesIteration(plan, script, w, i)
    requires i <= n < i + |RunFrom(plan, script, WorldAt(plan, script, w, i), i).records|
    ensures ReachesIteration(plan, script, w, n) && n < Times(plan)
    ensures RunFrom(plan, script, WorldAt(plan, script, w, i), i).records[n - i]
            == Iterate(plan, script, WorldAt(plan, script, w, n), n).record
    ensures var run := RunFrom(plan, script, WorldAt(plan, script, w, i), i);
            (run.fault.None? || n - i < |run.records| - 1 ==> Iterate(plan, script, WorldAt(plan, script, w, n), n).fault.None?)
            && (run.fault == Some(NoReproSection) ==>
                  Iterate(plan, script, WorldAt(plan, script, w, n), n).fault in {None, Some(NoReproSection)})
    decreases n - i
  {
    hide Iterate;
    assert WorldAt(plan, script, w, i + 1) == Iterate(plan, script, WorldAt(plan, script, w, i), i).world;
    if i < n { RecordOfIterations(plan, script, w, i + 1, n); }
  }

  /** An iteration that is not the last: the stores it leaves are those of its main group. */
  lemma CompleteIteration(plan: Plan, script: Script, w: World, iteration: nat)
    requires var step := Iterate(plan, script, w, iteration); step.fault.None? && !step.last
    ensures ReachesCommand(plan, script, w, |plan.main|, iteration)
    ensures Iterate(plan, script, w, iteration).world.stores == WorldBefore(plan, script, w, |plan.main|, iteration).stores
  {
    hide RunMain, Triggered, SendGroup;
    assert WorldBefore(plan, script, w, 0, iteration) == w;
    CompleteGroup(plan, script, w, 0, iteration);
    if plan.repro.Some? {
      ScheduleTheorems.SendGroupTrace(script, RunMain(plan, script, w, 0, iteration).world, plan.repro.value.postMortem, 0, true);
    }
  }

  /** At the start of any iteration that the run reaches, the store of the test is the history it
      builds by itself from what its command was answered so far. */
  lemma {:induction false} StoreIsHistory(plan: Plan, script: Script, w: World, key: Key, j: nat, m: nat, n: nat)
    requires NamedOnce(plan, key, j, m) && StoreOf(w, key) == map[] && ReachesIteration(plan, script, w, n)
    ensures StoreOf(WorldAt(plan, script, w, n), key)
            == History(plan.lib, plan.tests[key].spec, ResultsUpTo(plan, script, w, j, n))
  {
    hide Iterate, NamedOnce, StoreAfter, ResultsOf, StoreOf, History, WorldBefore, ReachesCommand;
    NamedThere(plan, key, j, m);
    if n > 0 {
      StoreIsHistory(plan, script, w, key, j, m, n - 1);
      var start := WorldAt(plan, script, w, n - 1);
      CompleteIteration(plan, script, start, n - 1);
      GroupStores(plan, script, start, key, j, m, |plan.main|, n - 1);
      SameStoreOf(Iterate(plan, script, start, n - 1).world, WorldBefore(plan, script, start, |plan.main|, n - 1), key);
      HistoryNext(plan.lib, plan.tests[key].spec, ResultsUpTo(plan, script, w, j, n - 1),
                  ResultsOf(plan, script, start, j, n - 1));
    }
  }

  lemma SameStoreOf(a: World, b: World, key: Key)
    requires a.stores == b.stores
    ensures StoreOf(a, key) == StoreOf(b, key)
  {
  }

  lemma {:induction false} InFiring(plan: Plan, w: World, cmd: Text, ids: seq<int>, i: nat, results: seq<CmdResult>,
                                    iteration: nat, id: int)
    requires i <= |ids|
    ensures id in ScheduleTheorems.Firing(plan, w, cmd, ids, i, results, iteration)
            <==> id in ids[i..] && Key(cmd, id) in plan.tests
                 && ScheduleTheorems.VerdictIn(plan, w, Key(cmd, id), results, iteration) == Ok(true)
    decreases |ids| - i
  {
    hide TestVerdict, ContextIn;
    if i < |ids| {
      assert ids[i..] == [ids[i]] + ids[i + 1..];
      InFiring(plan, w, cmd, ids, i + 1, results, iteration, id);
    }
  }

  /** A test before position m of the list triggers on the results. */
  ghost predicate Preceded(plan: Plan, w: World, cmd: Text, ids: seq<int>, i: nat, m: nat, results: seq<CmdResult>, iteration: nat)
    requires m <= |ids|
  {
    exists k :: i <= k < m && Key(cmd, ids[k]) in plan.tests
                && ScheduleTheorems.VerdictIn(plan, w, Key(cmd, ids[k]), results, iteration) == Ok(true)
  }

  lemma {:induction false} FirstFiring(plan: Plan, w: World, cmd: Text, ids: seq<int>, i: nat, m: nat,
                                       results: seq<CmdResult>, iteration: nat)
    requires i <= m < |ids| && forall k :: i <= k < |ids| && k != m ==> ids[k] != ids[m]
    ensures ids[m] in ScheduleTheorems.AtMostOne(ScheduleTheorems.Firing(plan, w, cmd, ids, i, results, iteration))
            <==> Key(cmd, ids[m]) in plan.tests
                 && ScheduleTheorems.VerdictIn(plan, w, Key(cmd, ids[m]), results, iteration) == Ok(true)
                 && !Preceded(plan, w, cmd, ids, i, m, results, iteration)
    decreases m - i
  {
    hide TestVerdict, ContextIn;
    if i < m {
      FirstFiring(plan, w, cmd, ids, i + 1, m, results, iteration);
    } else {
      InFiring(plan, w, cmd, ids, i + 1, results, iteration, ids[m]);
      var rest := ids[i + 1..];
      assert forall k :: 0 <= k < |rest| ==> rest[k] == ids[i + 1 + k];
    }
  }

  /** The test at position m is to fire: its verdict is true, and with stop_when_triggered no test
      before it triggers. */
  ghost predicate ToFire(plan: Plan, w: World, cmd: Text, ids: seq<int>, m: nat, results: seq<CmdResult>, iteration: nat)
    requires m < |ids| && Key(cmd, ids[m]) in plan.tests
  {
    ScheduleTheorems.VerdictIn(plan, w, Key(cmd, ids[m]), results, iteration) == Ok(true)
    && (Stops(plan) ==> !Preceded(plan, w, cmd, ids, 0, m, results, iteration))
  }

  lemma FiredInList(plan: Plan, script: Script, w: World, cmd: Text, ids: seq<int>, m: nat, results: seq<CmdResult>,
                    iteration: nat)
    requires m < |ids| && Key(cmd, ids[m]) in plan.tests && forall k :: 0 <= k < |ids| && k != m ==> ids[k] != ids[m]
    ensures var r := RunTests(plan, script, w, cmd, ids, 0, results, iteration);
            var fires := ToFire(plan, w, cmd, ids, m, results, iteration);
            (ids[m] in r.fired ==> fires) && (r.fault.None? && fires ==> ids[m] in r.fired)
  {
    hide RunTests, TestVerdict;
    ScheduleTheorems.TestsThatFire(plan, script, w, w, cmd, ids, 0, results, iteration);
    FirstFiring(plan, w, cmd, ids, 0, m, results, iteration);
    InFiring(plan, w, cmd, ids, 0, results, iteration, ids[m]);
    assert ids[0..] == ids && ids[m] in ids;
    hide ScheduleTheorems.Firing, Preceded;
  }

  lemma SameToFire(plan: Plan, v: World, w: World, cmd: Text, ids: seq<int>, m: nat, results: seq<CmdResult>, iteration: nat)
    requires m < |ids| && Key(cmd, ids[m]) in plan.tests && v.stores == w.stores
    ensures ToFire(plan, v, cmd, ids, m, results, iteration) <==> ToFire(plan, w, cmd, ids, m, results, iteration)
  {
    hide TestVerdict;
    forall key | key in plan.tests
      ensures ScheduleTheorems.VerdictIn(plan, v, key, results, iteration)
              == ScheduleTheorems.VerdictIn(plan, w, key, results, iteration)
    {
    }
    hide ScheduleTheorems.VerdictIn;
  }

  /** What one main command fires, seen from one test it names: it fires only when it is to, and then
      does unless a fault ends the command. */
  lemma FiredByCommand(plan: Plan, script: Script, w: World, key: Key, j: nat, m: nat, iteration: nat)
    requires NamedOnce(plan, key, j, m)
    ensures var r := RunCommand(plan, script, w, j, iteration);
            var results := Answer(script, w, Collects(plan) || plan.main[j].spec.processResult);
            var fires := ToFire(plan, w, key.cmd, plan.main[j].spec.testIDs, m, results, iteration);
            (key.id in r.fired ==> fires) && (r.fault.None? && fires ==> key.id in r.fired)
  {
    hide RunTests, TestVerdict, ToFire;
    NamedThere(plan, key, j, m);
    var command := plan.main[j].spec;
    var collect := Collects(plan) || command.processResult;
    var results := Answer(script, w, collect);
    var s := Send(script, w, command, collect);
    var matched := if collect then WithMatches(plan, s.world, j, results) else s.world;
    SameToFire(plan, matched, w, command.cmd, command.testIDs, m, results, iteration);
    FiredInList(plan, script, matched, command.cmd, command.testIDs, m, results, iteration);
  }

  /** A recorded iteration: the run got to it, and its record is that of its main group. */
  lemma RecordedGroup(plan: Plan, script: Script, w: World, n: nat)
    requires n < |RunFrom(plan, script, w, 0).records|
    ensures ReachesIteration(plan, script, w, n)
    ensures var run, g := RunFrom(plan, script, w, 0), RunMain(plan, script, WorldAt(plan, script, w, n), 0, n);
            run.records[n] == g.record
            && (run.fault.None? || run.fault == Some(NoReproSection) || n < |run.records| - 1 ==> g.fault.None?)
  {
    hide RunMain, SendGroup, Triggered, RunFrom;
    assert WorldAt(plan, script, w, 0) == w;
    RecordOfIterations(plan, script, w, 0, n);
    var legal := ScheduleTheorems.RunMainTrace(plan, script, WorldAt(plan, script, w, n), 0, n);
  }

  /** No fault ended main command j of iteration n. */
  ghost predicate Finished(plan: Plan, script: Script, w: World, n: nat, j: nat)
    requires j < |plan.main|
  {
    StepOf(plan, script, WorldAt(plan, script, w, n), j, n).fault.None?
  }

  /** So it is for every recorded command of a run without a fault, or one that only the missing
      repro section ended, and in every run for all but the last recorded command. */
  lemma FinishedWhen(plan: Plan, script: Script, w: World, n: nat, j: nat)
    requires var run := RunFrom(plan, script, w, 0); n < |run.records| && j < |run.records[n]|
    requires var run := RunFrom(plan, script, w, 0);
             run.fault.None? || run.fault == Some(NoReproSection)
             || n < |run.records| - 1 || j < |run.records[n]| - 1
    ensures j < |plan.main| && Finished(plan, script, w, n, j)
  {
    hide RunFrom, RunMain, RunCommand, WorldAt;
    RecordedGroup(plan, script, w, n);
    var start := WorldAt(plan, script, w, n);
    assert WorldBefore(plan, script, start, 0, n) == start;
    RecordOfSteps(plan, script, start, 0, j, n);
  }

  /** The world in which main command j of iteration n is sent. */
  ghost function SentIn(plan: Plan, script: Script, w: World, n: nat, j: nat): (r: World)
    requires j < |plan.main|
  {
    WorldBefore(plan, script, WorldAt(plan, script, w, n), j, n)
  }

  /** Whether the test is to fire in iteration n, by the history of what its command was answered. */
  ghost predicate FiresOn(plan: Plan, script: Script, w: World, key: Key, j: nat, m: nat, n: nat)
    requires NamedOnce(plan, key, j, m)
  {
    var run := ResultsUpTo(plan, script, w, j, n + 1);
    TestVerdict(RunContext(plan.lib, plan.tests[key].spec, run, n), run[n]) == Ok(true)
    && !Beaten(plan, script, w, j, m, n)
  }

  /** With stop_when_triggered, a test that its command names before position m triggers. */
  ghost predicate Beaten(plan: Plan, script: Script, w: World, j: nat, m: nat, n: nat)
    requires j < |plan.main| && m <= |plan.main[j].spec.testIDs|
  {
    var command := plan.main[j].spec;
    Stops(plan)
    && Preceded(plan, SentIn(plan, script, w, n, j), command.cmd, command.testIDs, 0, m,
                ResultsOf(plan, script, WorldAt(plan, script, w, n), j, n), n)
  }

  /** Every recorded iteration n of every run: the test is among those that fired only when its verdict
      on the history of what its command was answered is true, and with stop_when_triggered no test
      named before it triggers; and then it is, unless a fault ended its command. */
  lemma FiresByHistory(plan: Plan, script: Script, w: World, key: Key, j: nat, m: nat, n: nat)
    requires NamedOnce(plan, key, j, m) && StoreOf(w, key) == map[]
    requires var run := RunFrom(plan, script, w, 0); n < |run.records| && j < |run.records[n]|
    ensures var fired, fires := RunFrom(plan, script, w, 0).records[n][j], FiresOn(plan, script, w, key, j, m, n);
            (key.id in fired ==> fires) && (Finished(plan, script, w, n, j) && fires ==> key.id in fired)
  {
    hide RunFrom, RunMain, RunCommand, TestVerdict, StoreAfter, NamedOnce, StoreOf, WorldAt, Answer, Preceded;
    NamedThere(plan, key, j, m);
    RecordedGroup(plan, script, w, n);
    StoreIsHistory(plan, script, w, key, j, m, n);
    var start := WorldAt(plan, script, w, n);
    assert WorldBefore(plan, script, start, 0, n) == start;
    RecordOfSteps(plan, script, start, 0, j, n);
    GroupStores(plan, script, start, key, j, m, j, n);
    FiredByCommand(plan, script, WorldBefore(plan, script, start, j, n), key, j, m, n);
    var run := ResultsUpTo(plan, script, w, j, n + 1);
    assert run[..n] == ResultsUpTo(plan, script, w, j, n);
  }

  lemma {:induction false} ResultsPrefix(plan: Plan, script: Script, w: World, j: nat, i: nat, n: nat)
    requires j < |plan.main| && i <= n
    ensures ResultsUpTo(plan, script, w, j, n)[..i] == ResultsUpTo(plan, script, w, j, i)
    ensures i < n ==> ResultsUpTo(plan, script, w, j, n)[i] == ResultsOf(plan, script, WorldAt(plan, script, w, i), j, i)
  {
    hide ResultsOf, WorldAt;
    if i < n { ResultsPrefix(plan, script, w, j, i, n - 1); }
  }

  /** No iteration that the run got past failed in the test. */
  lemma VerdictsGiven(plan: Plan, script: Script, w: World, key: Key, j: nat, m: nat, i: nat, n: nat)
    requires NamedOnce(plan, key, j, m) && StoreOf(w, key) == map[] && i < n && ReachesIteration(plan, script, w, n)
    ensures var run := ResultsUpTo(plan, script, w, j, n);
            TestVerdict(RunContext(plan.lib, plan.tests[key].spec, run, i), run[i]).Ok?
  {
    hide RunCommand, Iterate, TestVerdict, NamedOnce, StoreAfter, StoreOf, WorldAt, Answer;
    NamedThere(plan, key, j, m);
    var start := WorldAt(plan, script, w, i);
    CompleteIteration(plan, script, start, i);
    StoreIsHistory(plan, script, w, key, j, m, i);
    GroupStores(plan, script, start, key, j, m, j, i);
    assert GoesOn(plan, StepOf(plan, script, start, j, i));
    NamingCommand(plan, script, WorldBefore(plan, script, start, j, i), j, m, i, key);
    ResultsPrefix(plan, script, w, j, i, n);
  }

  predicate OneAnswerEach(run: seq<seq<CmdResult>>)
  {
    forall i :: 0 <= i < |run| ==> |run[i]| == 1
  }

  /** One answer per iteration makes such a run a clean one. */
  lemma RunIsClean(plan: Plan, script: Script, w: World, key: Key, j: nat, m: nat, n: nat)
    requires NamedOnce(plan, key, j, m) && StoreOf(w, key) == map[] && ReachesIteration(plan, script, w, n)
    requires plan.tests[key].spec.fields != []
    requires OneAnswerEach(ResultsUpTo(plan, script, w, j, n))
    ensures CleanRun(plan.lib, plan.tests[key].spec, ResultsUpTo(plan, script, w, j, n))
  {
    hide NamedOnce, ResultsUpTo, StoreOf, ReachesIteration, RunContext, ResultOutcome;
    NamedThere(plan, key, j, m);
    var run := ResultsUpTo(plan, script, w, j, n);
    forall i | 0 <= i < n
      ensures !ResultOutcome(RunContext(plan.lib, plan.tests[key].spec, run, i), run[i][0].result).Failed?
    {
      VerdictsGiven(plan, script, w, key, j, m, i, n);
    }
  }

  /** Whether such a test is to fire, by its one field. */
  lemma FiresOnByField(plan: Plan, script: Script, w: World, key: Key, j: nat, m: nat, n: nat, f: Field)
    requires NamedOnce(plan, key, j, m) && StoreOf(w, key) == map[] && ReachesIteration(plan, script, w, n)
    requires plan.tests[key].spec.fields == [f] && f.operation == ComparePreviousNeq
    requires OneAnswerEach(ResultsUpTo(plan, script, w, j, n + 1))
    ensures var run := ResultsUpTo(plan, script, w, j, n + 1);
            CleanBefore(plan.lib, plan.tests[key].spec, run, n)
            && (FiresOn(plan, script, w, key, j, m, n)
                <==> OneFieldFires(plan.lib, plan.tests[key].spec, run, n, f.fieldNumber) && !Beaten(plan, script, w, j, m, n))
  {
    hide TestVerdict, ResultsUpTo, CleanRun, StoreOf, NamedOnce, ReachesIteration, OneFieldFires, Beaten, History;
    NamedThere(plan, key, j, m);
    var run := ResultsUpTo(plan, script, w, j, n + 1);
    ResultsPrefix(plan, script, w, j, n, n + 1);
    assert OneAnswerEach(run[..n]) by { assert forall i :: 0 <= i < n ==> run[..n][i] == run[i]; }
    RunIsClean(plan, script, w, key, j, m, n);
    OneFieldNeqVerdict(plan.lib, plan.tests[key].spec, run, n, f);
  }

  /** A test with one compare_with_previous_neq field, whatever its other settings and however the run
      ends, whose command answers once per iteration: what fires in iteration n. */
  lemma FiresOnChange(plan: Plan, script: Script, w: World, key: Key, j: nat, m: nat, n: nat, f: Field)
    requires NamedOnce(plan, key, j, m) && StoreOf(w, key) == map[]
    requires var run := RunFrom(plan, script, w, 0); n < |run.records| && j < |run.records[n]|
    requires plan.tests[key].spec.fields == [f] && f.operation == ComparePreviousNeq
    requires OneAnswerEach(ResultsUpTo(plan, script, w, j, n + 1))
    ensures CleanBefore(plan.lib, plan.tests[key].spec, ResultsUpTo(plan, script, w, j, n + 1), n)
    ensures var fired := RunFrom(plan, script, w, 0).records[n][j];
            var run := ResultsUpTo(plan, script, w, j, n + 1);
            var fires := OneFieldFires(plan.lib, plan.tests[key].spec, run, n, f.fieldNumber)
                         && !Beaten(plan, script, w, j, m, n);
            (key.id in fired ==> fires) && (Finished(plan, script, w, n, j) && fires ==> key.id in fired)
  {
    hide RunFrom, ResultsUpTo, StoreOf, NamedOnce, ReachesIteration, OneFieldFires, Beaten, Finished, CleanBefore, FiresOn;
    NamedThere(plan, key, j, m);
    FiresByHistory(plan, script, w, key, j, m, n);
    RecordedGroup(plan, script, w, n);
    FiresOnByField(plan, script, w, key, j, m, n, f);
  }

  /** The same with a fixed occurrence and no expected count: the test is to fire exactly when n > 0
      and the field reads a value that differs from what it read in iteration n - 1. */
  lemma FiresOnChangeOfOccurrence(plan: Plan, script: Script, w: World, key: Key, j: nat, m: nat, n: nat, f: Field)
    requires NamedOnce(plan, key, j, m) && StoreOf(w, key) == map[]
    requires var run := RunFrom(plan, script, w, 0); n < |run.records| && j < |run.records[n]|
    requires var spec := plan.tests[key].spec;
             spec.fields == [f] && f.operation == ComparePreviousNeq
             && spec.occurrence > 0 && spec.numberOfOccurrences.None? && !spec.checkAllResults
    requires OneAnswerEach(ResultsUpTo(plan, script, w, j, n + 1))
    ensures var fired := RunFrom(plan, script, w, 0).records[n][j];
            var run, spec := ResultsUpTo(plan, script, w, j, n + 1), plan.tests[key].spec;
            var k := spec.occurrence - 1;
            var fires := n > 0 && ReadAt(plan.lib, spec, run, n, k, f.fieldNumber).Some?
                         && ChangedAt(plan.lib, spec, run, n, k, f.fieldNumber)
                         && !Beaten(plan, script, w, j, m, n);
            (key.id in fired ==> fires) && (Finished(plan, script, w, n, j) && fires ==> key.id in fired)
  {
    hide RunFrom, ResultsUpTo, CleanBefore, OneFieldFires, ReadAt, Beaten, Finished;
    FiresOnChange(plan, script, w, key, j, m, n, f);
    FixedOccurrenceVerdict(plan.lib, plan.tests[key].spec, ResultsUpTo(plan, script, w, j, n + 1), n, f.fieldNumber);
  }

  // ----- a run without a repro section

  /** Test `id` is one that main command j runs. */
  predicate Runs(plan: Plan, j: nat, id: int)
    requires j < |plan.main|
  {
    plan.main[j].spec.cmd in plan.testedCommands && id in plan.main[j].spec.testIDs
    && Key(plan.main[j].spec.cmd, id) in plan.tests
  }

  /** The verdict of that test in the first iteration, on what the command was answered. */
  ghost function FirstVerdict(plan: Plan, script: Script, w: World, j: nat, id: int): (r: Result<bool, FieldParser.Error>)
    requires j < |plan.main| && Runs(plan, j, id)
  {
    var results := ResultsOf(plan, script, w, j, 0);
    TestVerdict(ContextIn(plan, WorldBefore(plan, script, w, j, 0), Key(plan.main[j].spec.cmd, id), 0), results)
  }

  /** What one main command fires, without stop_when_triggered: the tests it runs whose verdict is
      true. */
  lemma FiredIds(plan: Plan, script: Script, w: World, j: nat, iteration: nat, id: int)
    requires j < |plan.main| && !Stops(plan) && RunCommand(plan, script, w, j, iteration).fault.None?
    ensures id in RunCommand(plan, script, w, j, iteration).fired
            <==> Runs(plan, j, id)
                 && TestVerdict(ContextIn(plan, w, Key(plan.main[j].spec.cmd, id), iteration),
                                Answer(script, w, Collects(plan) || plan.main[j].spec.processResult)) == Ok(true)
  {
    hide RunTests, TestVerdict;
    var command := plan.main[j].spec;
    var collect := Collects(plan) || command.processResult;
    var results := Answer(script, w, collect);
    var s := Send(script, w, command, collect);
    var matched := if collect then WithMatches(plan, s.world, j, results) else s.world;
    var key := Key(command.cmd, id);
    if key in plan.tests { assert ContextIn(plan, matched, key, iteration) == ContextIn(plan, w, key, iteration); }
    assert command.testIDs[0..] == command.testIDs;
    if command.cmd in plan.testedCommands {
      InFiring(plan, matched, command.cmd, command.testIDs, 0, results, iteration, id);
      ScheduleTheorems.TestsThatFire(plan, script, matched, matched, command.cmd, command.testIDs, 0, results, iteration);
    }
  }

  lemma {:induction false} FullRecord(plan: Plan, script: Script, w: World, j: nat, iteration: nat)
    requires j <= |plan.main| && !Stops(plan) && RunMain(plan, script, w, j, iteration).fault.None?
    ensures |RunMain(plan, script, w, j, iteration).record| == |plan.main| - j
    decreases |plan.main| - j
  {
    hide RunCommand;
    if j < |plan.main| { FullRecord(plan, script, RunCommand(plan, script, w, j, iteration).world, j + 1, iteration); }
  }

  /** Without a repro section, whose absence a trigger does not survive: that ends the run exactly
      when nothing else ends its main group and the verdict of a test it runs is true. */
  lemma MissingReproByVerdicts(plan: Plan, script: Script, w: World)
    requires plan.repro.None?
    ensures RunFrom(plan, script, w, 0).fault == Some(NoReproSection)
            <==> RunMain(plan, script, w, 0, 0).fault.None?
                 && exists j: nat, id :: j < |plan.main| && Runs(plan, j, id) && FirstVerdict(plan, script, w, j, id) == Ok(true)
  {
    ScheduleTheorems.MissingReproExactly(plan, script, w);
    var group := RunMain(plan, script, w, 0, 0);
    hide RunFrom, RunMain, RunCommand, TestVerdict, Answer, Triggered, Runs;
    if group.fault.None? {
      assert WorldBefore(plan, script, w, 0, 0) == w;
      FullRecord(plan, script, w, 0, 0);
      forall j: nat, id | j < |plan.main|
        ensures id in group.record[j] <==> Runs(plan, j, id) && FirstVerdict(plan, script, w, j, id) == Ok(true)
      {
        RecordOfSteps(plan, script, w, 0, j, 0);
        FiredIds(plan, script, WorldBefore(plan, script, w, j, 0), j, 0, id);
      }
      TriggeredByIds(group.record);
    }
  }

  lemma TriggeredByIds(record: Record)
    ensures Triggered(record) <==> exists j: nat, id :: j < |record| && id in record[j]
  {
    if Triggered(record) {
      var k :| 0 <= k < |record| && record[k] != [];
      var j: nat := k;
      var id := record[j][0];
      assert j < |record| && id in record[j];
    }
    if j: nat, id :| j < |record| && id in record[j] { assert record[j] != []; }
  }

  /** Such a file is safe for every router when it processes no result. */
  lemma UnprocessedIsSafe(plan: Plan, script: Script, w: World)
    requires !Collects(plan) && forall j :: 0 <= j < |plan.main| ==> !plan.main[j].spec.processResult
    ensures RunFrom(plan, script, w, 0).fault != Some(NoReproSection)
  {
    MissingReproByVerdicts(plan, script, w);
    hide RunFrom, RunMain;
    forall j: nat, id | j < |plan.main| && Runs(plan, j, id) ensures FirstVerdict(plan, script, w, j, id) == Ok(false) {
      assert ResultsOf(plan, script, w, j, 0) == [];
    }
  }

  /** A router that never refuses a command. */
  ghost predicate Total(script: Script)
  {
    forall p: nat :: p in script
  }

  /** The verdict of a test in a first iteration that starts from empty stores. */
  ghost function FreshVerdict(plan: Plan, key: Key, results: seq<CmdResult>): (r: Result<bool, FieldParser.Error>)
    requires key in plan.tests
  {
    TestVerdict(Context(plan.lib, plan.tests[key].spec, 0, Values(map[])), results)
  }

  /** Some answer to main command j makes a test that it runs trigger and none of them fail. */
  ghost predicate Triggers(plan: Plan, j: nat, results: seq<CmdResult>)
  {
    j < |plan.main| && (Collects(plan) || plan.main[j].spec.processResult)
    && (forall id :: Runs(plan, j, id) ==> FreshVerdict(plan, Key(plan.main[j].spec.cmd, id), results).Ok?)
    && exists id :: Runs(plan, j, id) && FreshVerdict(plan, Key(plan.main[j].spec.cmd, id), results) == Ok(true)
  }

  /** No test has an entry from before the first iteration. */
  ghost predicate FreshStores(w: World)
  {
    forall key :: At(StoreOf(w, key), -1) == Values(map[])
  }

  lemma FreshContext(plan: Plan, w: World, key: Key, results: seq<CmdResult>)
    requires FreshStores(w) && key in plan.tests
    ensures ScheduleTheorems.VerdictIn(plan, w, key, results, 0) == FreshVerdict(plan, key, results)
  {
  }

  /** A list of tests that all have a verdict is run to its end. */
  lemma {:induction false} TestsAnswered(plan: Plan, script: Script, w: World, cmd: Text, ids: seq<int>, i: nat,
                                         results: seq<CmdResult>)
    requires i <= |ids| && Total(script) && FreshStores(w)
    requires forall k :: i <= k < |ids| && Key(cmd, ids[k]) in plan.tests ==> FreshVerdict(plan, Key(cmd, ids[k]), results).Ok?
    ensures RunTests(plan, script, w, cmd, ids, i, results, 0).fault.None?
    decreases |ids| - i
  {
    hide TestVerdict, StoreAfter, FreshVerdict, FreshStores, ScheduleTheorems.KeepsHistory;
    if i < |ids| {
      var key := Key(cmd, ids[i]);
      if key !in plan.tests {
        TestsAnswered(plan, script, w, cmd, ids, i + 1, results);
      } else {
        FreshContext(plan, w, key, results);
        var evaluated := Evaluated(plan, w, key, results, 0);
        ScheduleTheorems.EvaluatedKeepsHistory(plan, w, key, results, 0);
        FreshLater(w, evaluated);
        var group := SendGroup(script, evaluated, plan.tests[key].ifTriggered, 0, false);
        ScheduleTheorems.SendGroupTrace(script, evaluated, plan.tests[key].ifTriggered, 0, false);
        ScheduleTheorems.SameStoresKeepHistory(evaluated, group.world, 0);
        FreshLater(evaluated, group.world);
        TestsAnswered(plan, script, evaluated, cmd, ids, i + 1, results);
        TestsAnswered(plan, script, group.world, cmd, ids, i + 1, results);
      }
    }
  }

  lemma FreshLater(w: World, later: World)
    requires FreshStores(w) && ScheduleTheorems.KeepsHistory(w, later, 0)
    ensures FreshStores(later)
  {
  }

  /** A finished list of tests, none of which was stopped: all of them had a verdict. */
  lemma {:induction false} VerdictsOfFinished(plan: Plan, script: Script, w: World, cmd: Text, ids: seq<int>, i: nat,
                                              results: seq<CmdResult>)
    requires i <= |ids| && FreshStores(w) && !Stops(plan)
    requires RunTests(plan, script, w, cmd, ids, i, results, 0).fault.None?
    ensures forall k :: i <= k < |ids| && Key(cmd, ids[k]) in plan.tests ==> FreshVerdict(plan, Key(cmd, ids[k]), results).Ok?
    decreases |ids| - i
  {
    hide TestVerdict, StoreAfter, FreshVerdict, FreshStores, ScheduleTheorems.KeepsHistory;
    if i < |ids| {
      var key := Key(cmd, ids[i]);
      if key !in plan.tests {
        VerdictsOfFinished(plan, script, w, cmd, ids, i + 1, results);
      } else {
        FreshContext(plan, w, key, results);
        RunTestsStep(plan, script, w, cmd, ids, i, results, 0);
        var next := Tested(plan, script, w, key, results, 0);
        TestedKeeps(plan, script, w, key, results);
        FreshLater(w, next);
        VerdictsOfFinished(plan, script, next, cmd, ids, i + 1, results);
      }
    }
  }

  lemma TestedKeeps(plan: Plan, script: Script, w: World, key: Key, results: seq<CmdResult>)
    ensures ScheduleTheorems.KeepsHistory(w, Tested(plan, script, w, key, results, 0), 0)
  {
    hide TestVerdict, StoreAfter, ScheduleTheorems.KeepsHistory;
    if key !in plan.tests {
      ScheduleTheorems.SameStoresKeepHistory(w, w, 0);
    } else {
      var evaluated := Evaluated(plan, w, key, results, 0);
      ScheduleTheorems.EvaluatedKeepsHistory(plan, w, key, results, 0);
      var group := SendGroup(script, evaluated, plan.tests[key].ifTriggered, 0, false);
      ScheduleTheorems.SendGroupTrace(script, evaluated, plan.tests[key].ifTriggered, 0, false);
      ScheduleTheorems.SameStoresKeepHistory(evaluated, group.world, 0);
      ScheduleTheorems.KeepsThen(w, evaluated, group.world, 0, 0);
    }
  }

  /** One main command, answered by a router that refuses nothing. */
  lemma CommandAnswered(plan: Plan, script: Script, w: World, j: nat)
    requires j < |plan.main| && Total(script) && FreshStores(w)
    requires var results := Answer(script, w, Collects(plan) || plan.main[j].spec.processResult);
             forall id :: Runs(plan, j, id) ==> FreshVerdict(plan, Key(plan.main[j].spec.cmd, id), results).Ok?
    ensures RunCommand(plan, script, w, j, 0).fault.None? && FreshStores(RunCommand(plan, script, w, j, 0).world)
    ensures |w.sent| < |RunCommand(plan, script, w, j, 0).world.sent|
  {
    hide RunTests, FreshVerdict, FreshStores, ScheduleTheorems.KeepsHistory;
    var command := plan.main[j].spec;
    var collect := Collects(plan) || command.processResult;
    var results := Answer(script, w, collect);
    var s := Send(script, w, command, collect);
    var matched := if collect then WithMatches(plan, s.world, j, results) else s.world;
    ScheduleTheorems.SameStoresKeepHistory(w, matched, 0);
    FreshLater(w, matched);
    if command.cmd in plan.testedCommands {
      forall k | 0 <= k < |command.testIDs| && Key(command.cmd, command.testIDs[k]) in plan.tests
        ensures FreshVerdict(plan, Key(command.cmd, command.testIDs[k]), results).Ok?
      {
        assert Runs(plan, j, command.testIDs[k]);
      }
      TestsAnswered(plan, script, matched, command.cmd, command.testIDs, 0, results);
    }
    ScheduleTheorems.RunCommandKeepsHistory(plan, script, w, j, 0);
    FreshLater(w, RunCommand(plan, script, w, j, 0).world);
    ScheduleTheorems.RunCommandTrace(plan, script, w, j, 0);
    hide RunCommand;
    assert |CommandPart(plan, j, RunCommand(plan, script, w, j, 0).fired)| > 0;
  }

  /** With no output a command fires nothing and sends only itself. */
  lemma SilentCommand(plan: Plan, script: Script, w: World, j: nat)
    requires j < |plan.main| && Total(script) && FreshStores(w) && !Stops(plan)
    requires Answer(script, w, Collects(plan) || plan.main[j].spec.processResult) == []
    ensures RunCommand(plan, script, w, j, 0).fault.None? && FreshStores(RunCommand(plan, script, w, j, 0).world)
    ensures |RunCommand(plan, script, w, j, 0).world.sent| == |w.sent| + 1
  {
    forall id | Runs(plan, j, id) ensures FreshVerdict(plan, Key(plan.main[j].spec.cmd, id), []) == Ok(false) {}
    CommandAnswered(plan, script, w, j);
    ScheduleTheorems.RunCommandTrace(plan, script, w, j, 0);
    hide RunCommand, FreshStores;
    var fired := RunCommand(plan, script, w, j, 0).fired;
    if fired != [] {
      FiredIds(plan, script, w, j, 0, fired[0]);
    }
    assert fired == [];
  }

  predicate IsPosition(p: int) { p >= 0 }

  /** The router that gives the command at position base + j these results, and every other none. */
  ghost function OneAnswer(base: nat, j: nat, results: seq<CmdResult>): (script: Script)
  {
    imap p | IsPosition(p) :: if p == base + j then results else []
  }

  /** What that router makes of the main group from command i on. */
  lemma {:induction false} GroupAnswered(plan: Plan, w: World, i: nat, base: nat, j: nat, results: seq<CmdResult>)
    requires i <= |plan.main| && Triggers(plan, j, results) && FreshStores(w) && !Stops(plan)
    requires if i <= j then |w.sent| == base + i else |w.sent| > base + j
    ensures RunMain(plan, OneAnswer(base, j, results), w, i, 0).fault.None?
    decreases |plan.main| - i
  {
    hide RunCommand, FreshStores, FreshVerdict;
    var script := OneAnswer(base, j, results);
    if i < |plan.main| {
      if i == j {
        CommandAnswered(plan, script, w, i);
      } else {
        SilentOtherwise(plan, w, i, base, j, results);
      }
      GroupAnswered(plan, RunCommand(plan, script, w, i, 0).world, i + 1, base, j, results);
    }
  }

  lemma SilentOtherwise(plan: Plan, w: World, i: nat, base: nat, j: nat, results: seq<CmdResult>)
    requires i < |plan.main| && i != j && FreshStores(w) && !Stops(plan)
    requires if i <= j then |w.sent| == base + i else |w.sent| > base + j
    ensures var r := RunCommand(plan, OneAnswer(base, j, results), w, i, 0);
            r.fault.None? && FreshStores(r.world) && |r.world.sent| == |w.sent| + 1
  {
    SilentCommand(plan, OneAnswer(base, j, results), w, i);
  }

  /** Up to command j only the main commands themselves are sent. */
  lemma {:induction false} SilentUpTo(plan: Plan, w: World, i: nat, j: nat, results: seq<CmdResult>)
    requires i <= j < |plan.main| && FreshStores(w) && !Stops(plan)
    ensures var v := WorldBefore(plan, OneAnswer(|w.sent|, j, results), w, i, 0);
            FreshStores(v) && |v.sent| == |w.sent| + i
    decreases i
  {
    hide RunCommand, FreshStores;
    if i > 0 {
      SilentUpTo(plan, w, i - 1, j, results);
      SilentOtherwise(plan, WorldBefore(plan, OneAnswer(|w.sent|, j, results), w, i - 1, 0), i - 1, |w.sent|, j, results);
    }
  }

  lemma {:induction false} WorldBeforeIsFresh(plan: Plan, script: Script, w: World, j: nat)
    requires j <= |plan.main| && FreshStores(w)
    ensures FreshStores(WorldBefore(plan, script, w, j, 0))
  {
    hide RunCommand, FreshStores, ScheduleTheorems.KeepsHistory;
    if j > 0 {
      WorldBeforeIsFresh(plan, script, w, j - 1);
      var before := WorldBefore(plan, script, w, j - 1, 0);
      ScheduleTheorems.RunCommandKeepsHistory(plan, script, before, j - 1, 0);
      FreshLater(before, RunCommand(plan, script, before, j - 1, 0).world);
    }
  }

  /** Whether some router makes the run read the missing repro section is a matter of the file alone:
      it has none, and some answer to a command whose output is processed makes a test that it names
      trigger while none that it names fails. */
  lemma CanMissReproExactly(plan: Plan, w: World)
    requires FreshStores(w)
    ensures (exists script :: RunFrom(plan, script, w, 0).fault == Some(NoReproSection))
            <==> plan.repro.None? && exists j, results :: Triggers(plan, j, results)
  {
    if script :| RunFrom(plan, script, w, 0).fault == Some(NoReproSection) {
      ScheduleTheorems.MissingReproExactly(plan, script, w);
      MissedByTrigger(plan, script, w);
    }
    if plan.repro.None? {
      if j: nat, results :| Triggers(plan, j, results) {
        TriggerMisses(plan, w, j, results);
      }
    }
  }

  lemma TriggerMisses(plan: Plan, w: World, j: nat, results: seq<CmdResult>)
    requires FreshStores(w) && plan.repro.None? && Triggers(plan, j, results)
    ensures RunFrom(plan, OneAnswer(|w.sent|, j, results), w, 0).fault == Some(NoReproSection)
  {
    hide RunFrom, RunMain, RunCommand, FreshStores, TestVerdict;
    var script := OneAnswer(|w.sent|, j, results);
    GroupAnswered(plan, w, 0, |w.sent|, j, results);
    SilentUpTo(plan, w, j, j, results);
    var id :| Runs(plan, j, id) && FreshVerdict(plan, Key(plan.main[j].spec.cmd, id), results) == Ok(true);
    assert ResultsOf(plan, script, w, j, 0) == results;
    FreshContext(plan, WorldBefore(plan, script, w, j, 0), Key(plan.main[j].spec.cmd, id), results);
    assert FirstVerdict(plan, script, w, j, id) == Ok(true);
    MissingReproByVerdicts(plan, script, w);
  }

  lemma MissedByTrigger(plan: Plan, script: Script, w: World)
    requires FreshStores(w) && plan.repro.None? && RunFrom(plan, script, w, 0).fault == Some(NoReproSection)
    ensures exists j, results :: Triggers(plan, j, results)
  {
    hide RunFrom, RunMain, FreshStores, FreshVerdict;
    MissingReproByVerdicts(plan, script, w);
    var j: nat, id :| j < |plan.main| && Runs(plan, j, id) && FirstVerdict(plan, script, w, j, id) == Ok(true);
    var before := WorldBefore(plan, script, w, j, 0);
    var results := ResultsOf(plan, script, w, j, 0);
    WorldBeforeIsFresh(plan, script, w, j);
    FreshContext(plan, before, Key(plan.main[j].spec.cmd, id), results);
    assert WorldBefore(plan, script, w, 0, 0) == w;
    FullRecord(plan, script, w, 0, 0);
    RecordOfSteps(plan, script, w, 0, j, 0);
    VerdictsOfCommand(plan, script, before, j);
    assert results != [] by { hide WorldBefore, RunCommand; }
    assert Triggers(plan, j, results);
  }

  lemma VerdictsOfCommand(plan: Plan, script: Script, w: World, j: nat)
    requires j < |plan.main| && FreshStores(w) && !Stops(plan) && RunCommand(plan, script, w, j, 0).fault.None?
    ensures var results := Answer(script, w, Collects(plan) || plan.main[j].spec.processResult);
            forall id :: Runs(plan, j, id) ==> FreshVerdict(plan, Key(plan.main[j].spec.cmd, id), results).Ok?
  {
    hide RunTests, FreshVerdict, FreshStores, ScheduleTheorems.KeepsHistory;
    var command := plan.main[j].spec;
    var collect := Collects(plan) || command.processResult;
    var results := Answer(script, w, collect);
    var s := Send(script, w, command, collect);
    var matched := if collect then WithMatches(plan, s.world, j, results) else s.world;
    ScheduleTheorems.SameStoresKeepHistory(w, matched, 0);
    FreshLater(w, matched);
    if command.cmd in plan.testedCommands {
      VerdictsOfFinished(plan, script, matched, command.cmd, command.testIDs, 0, results);
    }
  }
}
