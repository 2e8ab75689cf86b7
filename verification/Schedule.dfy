/** The repro engine as a function of the command file and of the router's answers, and the
    declarative schedule that the commands it sends follow. */
module Schedule {
  import opened Bytes
  import opened FieldParser
  import opened Verdict
  import opened Model
  import opened TestRunner

  // ----- what a run works on

  datatype Request = Request(command: CommandSpec, collect: bool)

  /** The router's answer to the n-th command it is ever sent; no answer means an error. */
  type Script = imap<int, seq<CmdResult>>

  /** Tests are found by the command they belong to and their id. */
  datatype Key = Key(cmd: Text, id: int)

  datatype TestEntry = TestEntry(spec: TestSpec, ifTriggered: seq<CommandSpec>)

  datatype MainCommand = MainCommand(spec: CommandSpec, patterns: seq<Text>)

  datatype Plan = Plan(
    lib: Lib,
    repro: Option<Repro>,
    collect: Option<Collect>,
    main: seq<MainCommand>,
    testedCommands: set<Text>,
    tests: map<Key, TestEntry>)

  datatype Report = Report(patternMatch: seq<Text>, triggered: seq<int>)

  /** Everything a run changes: the commands sent, the stores of the tests, the results kept
      for the commands. */
  datatype World = World(sent: seq<Request>, stores: map<Key, Store>, reports: seq<Report>)

  datatype Fault = RouterRefused | TestFailed(error: Error) | NoReproSection

  function Collects(plan: Plan): (pr: bool)
  {
    plan.repro.Some? || (plan.collect.Some? && plan.collect.value.processResult)
  }

  function Stops(plan: Plan): (b: bool)
  {
    plan.repro.Some? && plan.repro.value.stopWhenTriggered
  }

  function Times(plan: Plan): (n: nat)
  {
    if plan.repro.Some? && plan.repro.value.times > 0 then plan.repro.value.times else 1
  }

  function StoreOf(w: World, key: Key): (s: Store)
  {
    if key in w.stores then w.stores[key] else map[]
  }

  // ----- the engine, step by step

  datatype Sent = Sent(world: World, fault: Option<Fault>)

  function Send(script: Script, w: World, command: CommandSpec, collect: bool): (r: Sent)
  {
    Sent(w.(sent := w.sent + [Request(command, collect)]),
         if |w.sent| in script then None else Some(RouterRefused))
  }

  /** The results handed back for a command; none unless they are to be collected. */
  function Answer(script: Script, w: World, collect: bool): (r: seq<CmdResult>)
  {
    if collect && |w.sent| in script then script[|w.sent|] else []
  }

  function SendGroup(script: Script, w: World, commands: seq<CommandSpec>, i: nat, collect: bool): (r: Sent)
    requires i <= |commands|
    decreases |commands| - i
  {
    if i == |commands| then Sent(w, None)
    else
      var s := Send(script, w, commands[i], collect);
      if s.fault.Some? then s else SendGroup(script, s.world, commands, i + 1, collect)
  }

  ghost function ContextIn(plan: Plan, w: World, key: Key, iteration: nat): (cx: Context)
    requires key in plan.tests
  {
    ContextAt(plan.lib, plan.tests[key].spec, iteration, StoreOf(w, key))
  }

  /** The world after one test was evaluated. */
  ghost function Evaluated(plan: Plan, w: World, key: Key, results: seq<CmdResult>, iteration: nat): (r: World)
    requires key in plan.tests
  {
    w.(stores := w.stores[key := StoreAfter(ContextIn(plan, w, key, iteration), StoreOf(w, key), results)])
  }

  datatype Step = Step(world: World, fired: seq<int>, fault: Option<Fault>)

  ghost function RunTests(plan: Plan, script: Script, w: World, cmd: Text, ids: seq<int>, i: nat,
                          results: seq<CmdResult>, iteration: nat): (r: Step)
    requires i <= |ids|
    decreases |ids| - i
  {
    if i == |ids| then Step(w, [], None)
    else
      var key := Key(cmd, ids[i]);
      if key !in plan.tests then RunTests(plan, script, w, cmd, ids, i + 1, results, iteration)
      else
        var evaluated := Evaluated(plan, w, key, results, iteration);
        match TestVerdict(ContextIn(plan, w, key, iteration), results)
        case Err(e) => Step(evaluated, [], Some(TestFailed(e)))
        case Ok(false) => RunTests(plan, script, evaluated, cmd, ids, i + 1, results, iteration)
        case Ok(true) =>
          var group := SendGroup(script, evaluated, plan.tests[key].ifTriggered, 0, false);
          if group.fault.Some? || Stops(plan) then Step(group.world, [ids[i]], group.fault)
          else
            var rest := RunTests(plan, script, group.world, cmd, ids, i + 1, results, iteration);
            rest.(fired := [ids[i]] + rest.fired)
  }

  ghost function WithMatches(plan: Plan, w: World, j: nat, results: seq<CmdResult>): (r: World)
    requires j < |plan.main|
  {
    if j < |w.reports|
    then w.(reports := w.reports[j := w.reports[j].(patternMatch := PatternMatches(plan.lib, results, plan.main[j].patterns))])
    else w
  }

  function WithTriggered(w: World, j: nat, fired: seq<int>): (r: World)
  {
    if j < |w.reports| then w.(reports := w.reports[j := w.reports[j].(triggered := fired)]) else w
  }

  /** One command of the main group with the tests it names. */
  ghost function RunCommand(plan: Plan, script: Script, w: World, j: nat, iteration: nat): (r: Step)
    requires j < |plan.main|
  {
    var command := plan.main[j].spec;
    var collect := Collects(plan) || command.processResult;
    var s := Send(script, w, command, collect);
    if s.fault.Some? then Step(s.world, [], s.fault)
    else
      var results := Answer(script, w, collect);
      var matched := if collect then WithMatches(plan, s.world, j, results) else s.world;
      if command.cmd !in plan.testedCommands then Step(matched, [], None)
      else
        var t := RunTests(plan, script, matched, command.cmd, command.testIDs, 0, results, iteration);
        if t.fault.Some? then t else t.(world := WithTriggered(t.world, j, t.fired))
  }

  /** What fired in an iteration: the test ids, command by command. */
  type Record = seq<seq<int>>

  predicate Triggered(record: Record)
  {
    exists k :: 0 <= k < |record| && record[k] != []
  }

  datatype Group = Group(world: World, record: Record, fault: Option<Fault>)

  ghost function RunMain(plan: Plan, script: Script, w: World, j: nat, iteration: nat): (r: Group)
    requires j <= |plan.main|
    decreases |plan.main| - j
  {
    if j == |plan.main| then Group(w, [], None)
    else
      var s := RunCommand(plan, script, w, j, iteration);
      if s.fault.Some? || (Stops(plan) && s.fired != []) then Group(s.world, [s.fired], s.fault)
      else
        var rest := RunMain(plan, script, s.world, j + 1, iteration);
        rest.(record := [s.fired] + rest.record)
  }

  /** One iteration: the main group, then the post-mortem group if something fired. */
  datatype Iteration = Iteration(world: World, record: Record, fault: Option<Fault>, last: bool)

  ghost function Iterate(plan: Plan, script: Script, w: World, iteration: nat): (r: Iteration)
  {
    var group := RunMain(plan, script, w, 0, iteration);
    if group.fault.Some? || !Triggered(group.record) then Iteration(group.world, group.record, group.fault, false)
    else if plan.repro.None? then Iteration(group.world, group.record, Some(NoReproSection), false)
    else
      var s := SendGroup(script, group.world, plan.repro.value.postMortem, 0, true);
      Iteration(s.world, group.record, s.fault, Stops(plan))
  }

  datatype Run = Run(world: World, records: seq<Record>, fault: Option<Fault>)

  /** Iterations `iteration`, `iteration + 1`, ... up to the configured number. */
  ghost function RunFrom(plan: Plan, script: Script, w: World, iteration: nat): (r: Run)
    decreases Times(plan) - iteration
  {
    if iteration >= Times(plan) then Run(w, [], None)
    else
      var step := Iterate(plan, script, w, iteration);
      if step.fault.Some? || step.last then Run(step.world, [step.record], step.fault)
      else Before(step.record, RunFrom(plan, script, step.world, iteration + 1))
  }

  function Before(record: Record, rest: Run): (r: Run)
  {
    rest.(records := [record] + rest.records)
  }

  // ----- the declarative schedule

  function Requests(commands: seq<CommandSpec>, i: nat, collect: bool): (r: seq<Request>)
    requires i <= |commands|
    decreases |commands| - i
  {
    if i == |commands| then [] else [Request(commands[i], collect)] + Requests(commands, i + 1, collect)
  }

  /** The commands the fired tests of one main command ask for. */
  function FiredPart(plan: Plan, cmd: Text, fired: seq<int>): (r: seq<Request>)
  {
    if fired == [] then []
    else
      (if Key(cmd, fired[0]) in plan.tests then Requests(plan.tests[Key(cmd, fired[0])].ifTriggered, 0, false) else [])
      + FiredPart(plan, cmd, fired[1..])
  }

  function CommandPart(plan: Plan, j: nat, fired: seq<int>): (r: seq<Request>)
    requires j < |plan.main|
  {
    [Request(plan.main[j].spec, Collects(plan) || plan.main[j].spec.processResult)]
    + FiredPart(plan, plan.main[j].spec.cmd, fired)
  }

  /** Main commands j, j + 1, ... in order, each followed by what its tests ask for. */
  function MainPart(plan: Plan, j: nat, record: Record): (r: seq<Request>)
    requires j + |record| <= |plan.main|
    decreases |record|
  {
    if record == [] then [] else CommandPart(plan, j, record[0]) + MainPart(plan, j + 1, record[1..])
  }

  /** One iteration: the main group, then the post-mortem group if anything fired. */
  function IterationPart(plan: Plan, record: Record): (r: seq<Request>)
    requires |record| <= |plan.main|
  {
    MainPart(plan, 0, record)
    + if Triggered(record) && plan.repro.Some? then Requests(plan.repro.value.postMortem, 0, true) else []
  }

  function RunPart(plan: Plan, records: seq<Record>): (r: seq<Request>)
    requires forall k :: 0 <= k < |records| ==> |records[k]| <= |plan.main|
    decreases |records|
  {
    if records == [] then [] else IterationPart(plan, records[0]) + RunPart(plan, records[1..])
  }

  /** The ids among ids[i..] that the plan has a test for, a selection of which may fire. */
  predicate Selection(plan: Plan, cmd: Text, ids: seq<int>, i: nat, fired: seq<int>)
    requires i <= |ids|
    decreases |ids| - i
  {
    if fired == [] then true
    else if i == |ids| then false
    else (ids[i] == fired[0] && Key(cmd, ids[i]) in plan.tests && Selection(plan, cmd, ids, i + 1, fired[1..]))
         || Selection(plan, cmd, ids, i + 1, fired)
  }

  /** What may fire for main command j: tests it names, in order; at most one when stopping. */
  predicate LegalFired(plan: Plan, j: nat, fired: seq<int>)
    requires j < |plan.main|
  {
    Selection(plan, plan.main[j].spec.cmd, plan.main[j].spec.testIDs, 0, fired)
    && (plan.main[j].spec.cmd !in plan.testedCommands ==> fired == [])
    && (Stops(plan) ==> |fired| <= 1)
  }

  /** A complete iteration from main command j on: every command is sent, except that with
      stop_when_triggered the first one that fires is the last. */
  predicate LegalMain(plan: Plan, j: nat, record: Record)
    requires j <= |plan.main|
    decreases |plan.main| - j
  {
    if j == |plan.main| then record == []
    else
      record != [] && LegalFired(plan, j, record[0])
      && if Stops(plan) && record[0] != [] then |record| == 1 else LegalMain(plan, j + 1, record[1..])
  }

  /** A complete run: the configured number of iterations, except that with stop_when_triggered
      the first triggered one is the last. */
  predicate LegalRun(plan: Plan, iteration: nat, records: seq<Record>)
    decreases |records|
  {
    if iteration >= Times(plan) then records == []
    else
      records != [] && LegalMain(plan, 0, records[0])
      && if Stops(plan) && Triggered(records[0]) then |records| == 1 else LegalRun(plan, iteration + 1, records[1..])
  }
}
