/** The repro engine as it runs: the router remembers what it was sent, the tests keep their
    stores, the commands keep their results. Every method is tied to the engine's specification. */
module Pipeline {
  import opened Bytes
  import opened FieldParser
  import opened Verdict
  import opened Model
  import opened TestRunner
  import S = Schedule

  /** A router with a fixed list of answers; its n-th command gets the n-th answer or an error. */
  class Router {
    const script: S.Script
    var sent: seq<S.Request>

    constructor (script: S.Script)
      ensures this.script == script && sent == []
    {
      this.script := script;
      sent := [];
    }

    method ProcessCommand(command: CommandSpec, collect: bool) returns (r: Option<seq<CmdResult>>)
      modifies this
      ensures sent == old(sent) + [S.Request(command, collect)]
      ensures r == if |old(sent)| in script then Some(if collect then script[|old(sent)|] else []) else None
    {
      var n := |sent|;
      sent := sent + [S.Request(command, collect)];
      if n in script {
        r := Some(if collect then script[n] else []);
      } else {
        r := None;
      }
    }
  }

  datatype TestGroup = TestGroup(cmd: Text, source: seq<Test>)

  /** A command file. `testedCommands` and `index` are the maps built after decoding: the commands
      that have tests, and the tests by command and id. */
  class Commander {
    const repro: Option<Repro>
    const collect: Option<Collect>
    const groups: seq<TestGroup>
    const main: seq<Command>
    var testedCommands: set<Text>
    var index: map<S.Key, Test>

    constructor (repro: Option<Repro>, collect: Option<Collect>, groups: seq<TestGroup>, main: seq<Command>)
      ensures this.repro == repro && this.collect == collect && this.groups == groups && this.main == main
      ensures testedCommands == {} && index == map[]
    {
      this.repro := repro;
      this.collect := collect;
      this.groups := groups;
      this.main := main;
      testedCommands := {};
      index := map[];
    }

    ghost function Plan(lib: Lib): (plan: S.Plan)
      reads this
    {
      S.Plan(lib, repro, collect,
             seq(|main|, j requires 0 <= j < |main| => S.MainCommand(main[j].spec, Sources(main[j].patterns))),
             testedCommands,
             map key | key in index :: S.TestEntry(index[key].spec, index[key].ifTriggered))
    }

    /** Different keys lead to different test objects. */
    ghost predicate Injective()
      reads this
    {
      forall k, l :: k in index && l in index && index[k] == index[l] ==> k == l
    }

    ghost predicate TestsValid(lib: Lib)
      reads this, set key | key in index :: index[key], set key | key in index :: index[key].pattern
    {
      forall key :: key in index ==> index[key].Valid(lib)
    }

    /** Whether the output of main command j is processed. */
    predicate Processed(j: nat)
      requires j < |main|
    {
      repro.Some? || (collect.Some? && collect.value.processResult) || main[j].spec.processResult
    }

    /** The patterns of the main commands whose output is processed. */
    ghost function ProcessedPatterns(): (r: set<Pattern>)
    {
      set j, p | 0 <= j < |main| && Processed(j) && p in main[j].patterns :: p
    }

    /** Every main command has its own result object. */
    ghost predicate ResultsOwned()
      reads main
    {
      (forall j :: 0 <= j < |main| ==> main[j].commandResult != null)
      && (forall i, j :: 0 <= i < j < |main| ==> main[i].commandResult != main[j].commandResult)
    }

    /** Results can be kept, and the patterns that are matched are compiled. */
    ghost predicate CommandsReady(lib: Lib)
      reads main, ProcessedPatterns()
    {
      ResultsOwned() && forall p :: p in ProcessedPatterns() ==> p.Compiled(lib)
    }

    ghost function Stores(): (r: map<S.Key, Store>)
      reads this, set key | key in index :: index[key]
    {
      map key | key in index :: index[key].valuesStore
    }

    ghost function Reports(): (r: seq<S.Report>)
      reads main, set j | 0 <= j < |main| :: main[j].commandResult
    {
      seq(|main|, j requires 0 <= j < |main|
                    reads main, set k | 0 <= k < |main| :: main[k].commandResult
                  => ReportOf(main[j].commandResult))
    }

    ghost function TestObjects(): (r: set<object>)
      reads this
    {
      (set key | key in index :: index[key] as object)
      + (set key | key in index && index[key].pattern != null :: index[key].pattern as object)
    }

    ghost function ResultObjects(): (r: set<object>)
      reads main
    {
      set j | 0 <= j < |main| && main[j].commandResult != null :: main[j].commandResult as object
    }

    ghost predicate Ready(lib: Lib)
      reads this, TestObjects(), main, ProcessedPatterns()
    {
      Injective() && TestsValid(lib) && CommandsReady(lib)
    }
  }

  ghost function ReportOf(result: CommandResult?): (r: S.Report)
    reads result
  {
    if result == null then S.Report([], []) else S.Report(result.patternMatch, result.triggeredTest)
  }

  /** Everything a run changes, read off the objects. */
  ghost function View(r: Router, c: Commander): (w: S.World)
    reads r, c, c.TestObjects(), c.main, c.ResultObjects()
  {
    S.World(r.sent, c.Stores(), c.Reports())
  }

  // ----- the methods

  method ProcessGroup(r: Router, commands: seq<CommandSpec>, collect: bool, ghost w: S.World)
    returns (fault: Option<S.Fault>)
    requires w.sent == r.sent
    modifies r
    ensures S.SendGroup(r.script, w, commands, 0, collect) == S.Sent(w.(sent := r.sent), fault)
  {
    for i := 0 to |commands|
      invariant S.SendGroup(r.script, w, commands, 0, collect)
                == S.SendGroup(r.script, w.(sent := r.sent), commands, i, collect)
    {
      var answer := r.ProcessCommand(commands[i], collect);
      if answer.None? {
        return Some(S.RouterRefused);
      }
    }
    return None;
  }

  lemma OtherTests(c: Commander, key: S.Key)
    requires c.Injective() && key in c.index
    ensures forall k :: k in c.index && k != key ==> c.index[k] != c.index[key]
  {
  }

  /** Running one test leaves everything ready, and the stores of the other tests alone. */
  method RunIndexedTest(lib: Lib, c: Commander, key: S.Key, results: seq<CmdResult>, iteration: nat)
    returns (verdict: Result<bool, Error>)
    requires c.Ready(lib) && key in c.index
    modifies c.index[key].Footprint()
    ensures c.Ready(lib)
    ensures var cx := ContextAt(lib, c.index[key].spec, iteration, old(c.index[key].valuesStore));
            verdict == TestVerdict(cx, results)
            && c.index[key].valuesStore == StoreAfter(cx, old(c.index[key].valuesStore), results)
    ensures forall k :: k in c.index && k != key ==> c.index[k].valuesStore == old(c.index[k].valuesStore)
  {
    hide TestVerdict, StoreAfter, ContextAt, Lib.Compile, Commander.ResultsOwned, Commander.Injective;
    OtherTests(c, key);
    ghost var patterns := c.ProcessedPatterns();
    hide Commander.ProcessedPatterns;
    verdict := RunTest(lib, results, c.index[key], iteration);
    forall p | p in patterns ensures p.Compiled(lib) { assert old(p.Compiled(lib)); }
  }

  lemma StoresAre(c: Commander, stores: map<S.Key, Store>)
    requires stores.Keys == c.index.Keys && forall key :: key in c.index ==> stores[key] == c.index[key].valuesStore
    ensures c.Stores() == stores
  {
  }

  /** Evaluating one test changes its own store and nothing else that the run looks at. */
  method EvaluateTest(lib: Lib, c: Commander, key: S.Key, results: seq<CmdResult>, iteration: nat)
    returns (verdict: Result<bool, Error>)
    requires c.Ready(lib) && key in c.index
    modifies c.TestObjects()
    ensures c.Ready(lib)
    ensures var before := old(c.Stores());
            var cx := ContextAt(lib, c.index[key].spec, iteration, before[key]);
            verdict == TestVerdict(cx, results)
            && c.Stores() == before[key := StoreAfter(cx, before[key], results)]
    ensures c.Reports() == old(c.Reports())
  {
    hide TestVerdict, StoreAfter, ContextAt, Commander.Ready, ReportOf;
    ghost var stores := c.Stores();
    verdict := RunIndexedTest(lib, c, key, results, iteration);
    StoresAre(c, stores[key := c.index[key].valuesStore]);
  }

  /** One test, as a step of the engine. */
  method Evaluate(lib: Lib, r: Router, c: Commander, key: S.Key, results: seq<CmdResult>, iteration: nat)
    returns (verdict: Result<bool, Error>)
    requires c.Ready(lib) && key in c.index
    modifies c.TestObjects()
    ensures c.Ready(lib)
    ensures key in c.Plan(lib).tests
    ensures var plan, w := c.Plan(lib), old(View(r, c));
            verdict == TestVerdict(S.ContextIn(plan, w, key, iteration), results)
            && View(r, c) == S.Evaluated(plan, w, key, results, iteration)
  {
    hide TestVerdict, StoreAfter, Commander.Ready;
    verdict := EvaluateTest(lib, c, key, results, iteration);
  }

  /** A group of commands sent without collecting anything changes only what was sent. */
  method SendCommands(lib: Lib, r: Router, c: Commander, commands: seq<CommandSpec>, collect: bool)
    returns (fault: Option<S.Fault>)
    requires c.Ready(lib)
    modifies r
    ensures c.Ready(lib)
    ensures S.SendGroup(r.script, old(View(r, c)), commands, 0, collect) == S.Sent(View(r, c), fault)
  {
    ghost var w := View(r, c);
    fault := ProcessGroup(r, commands, collect, w);
    assert View(r, c) == w.(sent := r.sent);
  }

  lemma PlanTests(lib: Lib, c: Commander, key: S.Key)
    ensures key in c.index <==> key in c.Plan(lib).tests
    ensures key in c.index ==> c.Plan(lib).tests[key].ifTriggered == c.index[key].ifTriggered
    ensures c.Plan(lib).repro == c.repro
  {
  }

  /** The fired ids found so far, in front of what the rest of the list yields. */
  function Prepend(fired: seq<int>, rest: S.Step): (r: S.Step)
  {
    rest.(fired := fired + rest.fired)
  }

  method RunTests(lib: Lib, r: Router, c: Commander, results: seq<CmdResult>, cmd: Text, toRun: seq<int>,
                  iteration: nat)
    returns (triggers: seq<int>, fault: Option<S.Fault>)
    requires c.Ready(lib)
    modifies r, c.TestObjects()
    ensures c.Ready(lib)
    ensures S.RunTests(c.Plan(lib), r.script, old(View(r, c)), cmd, toRun, 0, results, iteration)
            == S.Step(View(r, c), triggers, fault)
  {
    hide TestVerdict, StoreAfter, Commander.Ready, Commander.Plan, View, S.Evaluated, S.ContextIn, S.SendGroup;
    ghost var plan := c.Plan(lib);
    ghost var start := View(r, c);
    triggers := [];
    for i := 0 to |toRun|
      invariant c.Ready(lib)
      invariant S.RunTests(plan, r.script, start, cmd, toRun, 0, results, iteration)
                == Prepend(triggers, S.RunTests(plan, r.script, View(r, c), cmd, toRun, i, results, iteration))
    {
      var key := S.Key(cmd, toRun[i]);
      PlanTests(lib, c, key);
      if key !in c.index {
        continue;
      }
      var triggered := Evaluate(lib, r, c, key, results, iteration);
      if triggered.Err? {
        return triggers, Some(S.TestFailed(triggered.error));
      }
      if triggered.value {
        var group := SendCommands(lib, r, c, c.index[key].ifTriggered, false);
        triggers := triggers + [toRun[i]];
        if group.Some? {
          return triggers, group;
        }
        if c.repro.Some? && c.repro.value.stopWhenTriggered {
          return triggers, None;
        }
      }
    }
    return triggers, None;
  }

  /** Sending one main command. */
  method SendMain(lib: Lib, r: Router, c: Commander, j: nat) returns (answer: Option<seq<CmdResult>>)
    requires c.Ready(lib) && j < |c.main|
    modifies r
    ensures c.Ready(lib)
    ensures var plan, w := c.Plan(lib), old(View(r, c));
            var collect := S.Collects(plan) || plan.main[j].spec.processResult;
            S.Send(r.script, w, plan.main[j].spec, collect)
            == S.Sent(View(r, c), if answer.None? then Some(S.RouterRefused) else None)
            && (answer.Some? ==> answer.value == S.Answer(r.script, w, collect))
  {
    answer := r.ProcessCommand(c.main[j].spec, c.Processed(j));
  }

  /** Keeping the pattern matches of main command j. */
  method KeepMatches(lib: Lib, r: Router, c: Commander, j: nat, results: seq<CmdResult>)
    requires c.Ready(lib) && j < |c.main| && c.Processed(j)
    modifies c.ResultObjects()
    ensures c.Ready(lib)
    ensures View(r, c) == S.WithMatches(c.Plan(lib), old(View(r, c)), j, results)
  {
    hide PatternMatches;
    var matches := MatchPatterns(lib, results, c.main[j].patterns);
    var result := c.main[j].commandResult;
    result.patternMatch := matches;
    ghost var before := old(c.Reports());
    assert c.Reports() == before[j := before[j].(patternMatch := matches)];
  }

  /** Keeping the ids of the tests that main command j triggered. */
  method KeepTriggered(lib: Lib, r: Router, c: Commander, j: nat, fired: seq<int>)
    requires c.Ready(lib) && j < |c.main|
    modifies c.ResultObjects()
    ensures c.Ready(lib)
    ensures View(r, c) == S.WithTriggered(old(View(r, c)), j, fired)
  {
    var result := c.main[j].commandResult;
    result.triggeredTest := fired;
    ghost var before := old(c.Reports());
    assert c.Reports() == before[j := before[j].(triggered := fired)];
  }

  lemma PlanMain(lib: Lib, c: Commander, j: nat)
    requires j < |c.main|
    ensures |c.Plan(lib).main| == |c.main|
    ensures c.Plan(lib).main[j].spec == c.main[j].spec
    ensures c.Processed(j) <==> S.Collects(c.Plan(lib)) || c.main[j].spec.processResult
    ensures c.Plan(lib).testedCommands == c.testedCommands
  {
  }

  /** The body of the main loop: one command, its patterns and its tests. */
  method ProcessMainCommand(lib: Lib, r: Router, c: Commander, j: nat, iteration: nat)
    returns (fired: seq<int>, fault: Option<S.Fault>)
    requires c.Ready(lib) && j < |c.main|
    modifies r, c.TestObjects(), c.ResultObjects()
    ensures c.Ready(lib)
    ensures j < |c.Plan(lib).main|
    ensures S.RunCommand(c.Plan(lib), r.script, old(View(r, c)), j, iteration) == S.Step(View(r, c), fired, fault)
  {
    hide Commander.Ready, Commander.Plan, View, S.RunTests, S.WithMatches, S.WithTriggered, S.Send, S.Answer, S.Collects;
    PlanMain(lib, c, j);
    fired := [];
    var answer := SendMain(lib, r, c, j);
    if answer.None? {
      return fired, Some(S.RouterRefused);
    }
    if c.Processed(j) {
      KeepMatches(lib, r, c, j, answer.value);
    }
    if c.main[j].spec.cmd !in c.testedCommands {
      return fired, None;
    }
    fired, fault := RunTests(lib, r, c, answer.value, c.main[j].spec.cmd, c.main[j].spec.testIDs, iteration);
    if fault.None? {
      KeepTriggered(lib, r, c, j, fired);
    }
  }

  /** One iteration of the main group; `record` is what fired, command by command. */
  method ProcessMainGroup(lib: Lib, r: Router, c: Commander, iteration: nat)
    returns (triggered: bool, fault: Option<S.Fault>, ghost record: S.Record)
    requires c.Ready(lib)
    modifies r, c.TestObjects(), c.ResultObjects()
    ensures c.Ready(lib)
    ensures S.RunMain(c.Plan(lib), r.script, old(View(r, c)), 0, iteration) == S.Group(View(r, c), record, fault)
    ensures fault.None? ==> (triggered <==> S.Triggered(record))
  {
    hide Commander.Ready, Commander.Plan, View, S.RunCommand, S.Triggered;
    ghost var plan := c.Plan(lib);
    ghost var start := View(r, c);
    assert |plan.main| == |c.main| by { if |c.main| > 0 { PlanMain(lib, c, 0); } else { PlanEmpty(lib, c); } }
    var stopWhenTriggered := c.repro.Some? && c.repro.value.stopWhenTriggered;
    assert stopWhenTriggered == S.Stops(plan) by { PlanTests(lib, c, S.Key([], 0)); }
    triggered := false;
    record := [];
    NothingTriggered();
    for j := 0 to |c.main|
      invariant c.Ready(lib)
      invariant triggered <==> S.Triggered(record)
      invariant stopWhenTriggered ==> !triggered
      invariant S.RunMain(plan, r.script, start, 0, iteration)
                == After(record, S.RunMain(plan, r.script, View(r, c), j, iteration))
    {
      var fired, failed := ProcessMainCommand(lib, r, c, j, iteration);
      TriggeredMore(record, fired);
      AfterMore(record, fired, S.RunMain(plan, r.script, View(r, c), j + 1, iteration));
      record := record + [fired];
      if failed.Some? {
        return false, failed, record;
      }
      if |fired| > 0 {
        triggered := true;
      }
      if stopWhenTriggered && triggered {
        return true, None, record;
      }
    }
    fault := None;
  }

  lemma PlanEmpty(lib: Lib, c: Commander)
    ensures |c.Plan(lib).main| == |c.main|
  {
  }

  lemma TriggeredMore(record: S.Record, fired: seq<int>)
    ensures S.Triggered(record + [fired]) <==> S.Triggered(record) || fired != []
  {
    var more := record + [fired];
    if S.Triggered(record) {
      var k :| 0 <= k < |record| && record[k] != [];
      assert more[k] != [];
    }
    if fired != [] { assert more[|record|] != []; }
  }

  function After(record: S.Record, rest: S.Group): (r: S.Group)
  {
    rest.(record := record + rest.record)
  }

  function AfterAll(records: seq<S.Record>, rest: S.Run): (r: S.Run)
  {
    rest.(records := records + rest.records)
  }

  lemma NothingTriggered()
    ensures !S.Triggered([])
  {
  }

  lemma AfterMore(record: S.Record, fired: seq<int>, rest: S.Group)
    ensures After(record, rest.(record := [fired] + rest.record)) == After(record + [fired], rest)
  {
    assert record + ([fired] + rest.record) == record + [fired] + rest.record;
  }

  /** One iteration with its post-mortem commands; `last` when the run stops here. */
  method ProcessIteration(lib: Lib, r: Router, c: Commander, iteration: nat, stopWhenTriggered: bool)
    returns (fault: Option<S.Fault>, last: bool, ghost record: S.Record)
    requires c.Ready(lib)
    requires c.repro.Some? ==> stopWhenTriggered == c.repro.value.stopWhenTriggered
    modifies r, c.TestObjects(), c.ResultObjects()
    ensures c.Ready(lib)
    ensures S.Iterate(c.Plan(lib), r.script, old(View(r, c)), iteration) == S.Iteration(View(r, c), record, fault, last)
  {
    hide Commander.Ready, Commander.Plan, View, S.RunMain, S.SendGroup, S.Triggered;
    PlanTests(lib, c, S.Key([], 0));
    var triggered;
    triggered, fault, record := ProcessMainGroup(lib, r, c, iteration);
    if fault.Some? || !triggered {
      return fault, false, record;
    }
    if c.repro.None? {
      return Some(S.NoReproSection), false, record;
    }
    fault := SendCommands(lib, r, c, c.repro.value.postMortem, true);
    last := stopWhenTriggered;
  }

  lemma AfterAllMore(records: seq<S.Record>, record: S.Record, rest: S.Run)
    ensures AfterAll(records, S.Before(record, rest)) == AfterAll(records + [record], rest)
  {
    assert records + ([record] + rest.records) == records + [record] + rest.records;
  }

  /** The whole repro run on one router. */
  method Process(lib: Lib, r: Router, c: Commander) returns (fault: Option<S.Fault>, ghost records: seq<S.Record>)
    requires c.Ready(lib)
    modifies r, c.TestObjects(), c.ResultObjects()
    ensures c.Ready(lib)
    ensures S.RunFrom(c.Plan(lib), r.script, old(View(r, c)), 0) == S.Run(View(r, c), records, fault)
  {
    hide Commander.Ready, Commander.Plan, View, S.Iterate;
    ghost var plan := c.Plan(lib);
    ghost var start := View(r, c);
    PlanTests(lib, c, S.Key([], 0));
    var iterations := 1;
    var stopWhenTriggered := true;
    if c.repro.Some? {
      if c.repro.value.times > 0 {
        iterations := c.repro.value.times;
      }
      stopWhenTriggered := c.repro.value.stopWhenTriggered;
    }
    assert iterations == S.Times(plan);
    records := [];
    for it := 0 to iterations
      invariant c.Ready(lib)
      invariant S.RunFrom(plan, r.script, start, 0) == AfterAll(records, S.RunFrom(plan, r.script, View(r, c), it))
    {
      ghost var record;
      var last;
      fault, last, record := ProcessIteration(lib, r, c, it, stopWhenTriggered);
      AfterAllMore(records, record, S.RunFrom(plan, r.script, View(r, c), it + 1));
      records := records + [record];
      if fault.Some? || last {
        return;
      }
    }
    fault := None;
  }
}
