/** What a run leaves with the main commands: the matches of their patterns and the tests that fired. */
module RunReports {
  import opened Bytes
  import opened Verdict
  import opened Model
  import opened TestRunner
  import opened Schedule
  import opened RunHistory
  import ScheduleTheorems

  lemma {:induction false} TestsKeepReports(plan: Plan, script: Script, w: World, cmd: Text, ids: seq<int>, i: nat,
                                            results: seq<CmdResult>, iteration: nat)
    requires i <= |ids|
    ensures RunTests(plan, script, w, cmd, ids, i, results, iteration).world.reports == w.reports
    decreases |ids| - i
  {
    hide TestVerdict, StoreAfter;
    if i < |ids| {
      var key := Key(cmd, ids[i]);
      if key !in plan.tests {
        TestsKeepReports(plan, script, w, cmd, ids, i + 1, results, iteration);
      } else {
        var evaluated := Evaluated(plan, w, key, results, iteration);
        TestsKeepReports(plan, script, evaluated, cmd, ids, i + 1, results, iteration);
        ScheduleTheorems.SendGroupTrace(script, evaluated, plan.tests[key].ifTriggered, 0, false);
        var group := SendGroup(script, evaluated, plan.tests[key].ifTriggered, 0, false);
        TestsKeepReports(plan, script, group.world, cmd, ids, i + 1, results, iteration);
      }
    }
  }

  /** What command j, sent in w, leaves with it: the lines of its answer that its patterns match when
      the answer is processed, and the ids that fired when the command has tests. */
  ghost predicate Reported(plan: Plan, script: Script, w: World, j: nat, fired: seq<int>, report: Report)
    requires j < |plan.main|
  {
    var spec := plan.main[j].spec;
    var processed := plan.repro.Some? || (plan.collect.Some? && plan.collect.value.processResult) || spec.processResult;
    (processed && |w.sent| in script ==>
       report.patternMatch == PatternMatches(plan.lib, script[|w.sent|], plan.main[j].patterns))
    && (spec.cmd in plan.testedCommands ==> report.triggered == fired)
  }

  /** One main command reports to its own entry only. */
  lemma CommandReports(plan: Plan, script: Script, w: World, j: nat, iteration: nat)
    requires j < |plan.main| && |w.reports| == |plan.main| && RunCommand(plan, script, w, j, iteration).fault.None?
    ensures var r := RunCommand(plan, script, w, j, iteration);
            |r.world.reports| == |plan.main| && |w.sent| in script
            && (forall i :: 0 <= i < |plan.main| && i != j ==> r.world.reports[i] == w.reports[i])
            && Reported(plan, script, w, j, r.fired, r.world.reports[j])
  {
    hide RunTests, PatternMatches;
    var command := plan.main[j].spec;
    var collect := Collects(plan) || command.processResult;
    var s := Send(script, w, command, collect);
    var results := Answer(script, w, collect);
    var matched := if collect then WithMatches(plan, s.world, j, results) else s.world;
    TestsKeepReports(plan, script, matched, command.cmd, command.testIDs, 0, results, iteration);
  }

  /** The main group from command j on: every command carried out reports, the others keep their entry. */
  lemma {:induction false} GroupReports(plan: Plan, script: Script, w: World, j: nat, iteration: nat)
    requires j <= |plan.main| && |WorldBefore(plan, script, w, j, iteration).reports| == |plan.main|
    requires RunMain(plan, script, WorldBefore(plan, script, w, j, iteration), j, iteration).fault.None?
    ensures var before := WorldBefore(plan, script, w, j, iteration);
            var g := RunMain(plan, script, before, j, iteration);
            j + |g.record| <= |plan.main| == |g.world.reports|
            && (forall i :: 0 <= i < |plan.main| && !(j <= i < j + |g.record|) ==> g.world.reports[i] == before.reports[i])
            && (forall i :: j <= i < j + |g.record| ==>
                  Reported(plan, script, WorldBefore(plan, script, w, i, iteration), i, g.record[i - j], g.world.reports[i]))
    decreases |plan.main| - j
  {
    hide RunCommand, Reported;
    if j < |plan.main| {
      var before := WorldBefore(plan, script, w, j, iteration);
      var s := StepOf(plan, script, w, j, iteration);
      assert WorldBefore(plan, script, w, j + 1, iteration) == s.world;
      CommandReports(plan, script, before, j, iteration);
      var g := RunMain(plan, script, before, j, iteration);
      if Stops(plan) && s.fired != [] {
        assert g.record == [s.fired];
      } else {
        GroupReports(plan, script, w, j + 1, iteration);
        var rest := RunMain(plan, script, s.world, j + 1, iteration);
        assert g.record == [s.fired] + rest.record && g.world == rest.world;
      }
    }
  }

  /** The last iteration of a fault-free run decides what its commands report. */
  lemma LastWorld(plan: Plan, script: Script, w: World, i: nat)
    requires i < Times(plan) && RunFrom(plan, script, WorldAt(plan, script, w, i), i).fault.None?
    ensures var run := RunFrom(plan, script, WorldAt(plan, script, w, i), i);
            run.records != []
            && run.world == Iterate(plan, script, WorldAt(plan, script, w, i + |run.records| - 1), i + |run.records| - 1).world
    decreases Times(plan) - i
  {
    hide Iterate;
    var step := Iterate(plan, script, WorldAt(plan, script, w, i), i);
    assert WorldAt(plan, script, w, i + 1) == step.world;
    if !step.last && i + 1 < Times(plan) { LastWorld(plan, script, w, i + 1); }
  }

  lemma {:induction false} GroupSize(plan: Plan, script: Script, w: World, iteration: nat)
    ensures |Iterate(plan, script, w, iteration).world.reports| == |w.reports|
  {
    MainSize(plan, script, w, 0, iteration);
    hide RunMain, SendGroup, Triggered;
    if plan.repro.Some? {
      ScheduleTheorems.SendGroupTrace(script, RunMain(plan, script, w, 0, iteration).world, plan.repro.value.postMortem, 0, true);
    }
  }

  lemma CommandSize(plan: Plan, script: Script, w: World, j: nat, iteration: nat)
    requires j < |plan.main|
    ensures |RunCommand(plan, script, w, j, iteration).world.reports| == |w.reports|
  {
    hide RunTests, PatternMatches;
    var command := plan.main[j].spec;
    var collect := Collects(plan) || command.processResult;
    var s := Send(script, w, command, collect);
    var results := Answer(script, w, collect);
    var matched := if collect then WithMatches(plan, s.world, j, results) else s.world;
    TestsKeepReports(plan, script, matched, command.cmd, command.testIDs, 0, results, iteration);
  }

  lemma {:induction false} MainSize(plan: Plan, script: Script, w: World, j: nat, iteration: nat)
    requires j <= |plan.main|
    ensures |RunMain(plan, script, w, j, iteration).world.reports| == |w.reports|
    decreases |plan.main| - j
  {
    hide RunCommand;
    if j < |plan.main| {
      CommandSize(plan, script, w, j, iteration);
      MainSize(plan, script, RunCommand(plan, script, w, j, iteration).world, j + 1, iteration);
    }
  }

  lemma {:induction false} SizeAt(plan: Plan, script: Script, w: World, n: nat)
    ensures |WorldAt(plan, script, w, n).reports| == |w.reports|
  {
    hide Iterate;
    if n > 0 {
      SizeAt(plan, script, w, n - 1);
      GroupSize(plan, script, WorldAt(plan, script, w, n - 1), n - 1);
    }
  }

  /** After a run that no fault ends, every command that its last iteration carried out holds the
      matches of its last answer and the tests that fired on it. */
  lemma RunLeaves(plan: Plan, script: Script, w: World, j: nat)
    requires |w.reports| == |plan.main| && RunFrom(plan, script, w, 0).fault.None?
    ensures var run := RunFrom(plan, script, w, 0);
            run.records != [] && |run.world.reports| == |plan.main|
            && var n := |run.records| - 1;
               j < |run.records[n]| ==>
                 j < |plan.main|
                 && Reported(plan, script, SentIn(plan, script, w, n, j), j, run.records[n][j], run.world.reports[j])
  {
    hide RunFrom, Iterate, RunMain, Reported, Triggered;
    assert WorldAt(plan, script, w, 0) == w;
    LastWorld(plan, script, w, 0);
    var run := RunFrom(plan, script, w, 0);
    var n := |run.records| - 1;
    var start := WorldAt(plan, script, w, n);
    RecordedGroup(plan, script, w, n);
    SizeAt(plan, script, w, n);
    assert WorldBefore(plan, script, start, 0, n) == start;
    GroupReports(plan, script, start, 0, n);
    LastReports(plan, script, start, n);
  }

  /** The post-mortem group reports nothing. */
  lemma LastReports(plan: Plan, script: Script, w: World, iteration: nat)
    ensures Iterate(plan, script, w, iteration).world.reports == RunMain(plan, script, w, 0, iteration).world.reports
  {
    hide RunMain, SendGroup, Triggered;
    if plan.repro.Some? {
      ScheduleTheorems.SendGroupTrace(script, RunMain(plan, script, w, 0, iteration).world, plan.repro.value.postMortem, 0, true);
    }
  }
}
