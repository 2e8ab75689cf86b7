/** Whole-run properties of the repro engine: the commands it sends follow the schedule, a refused
    command is the last one, what fires is what the verdicts say, history is never rewritten. */
module ScheduleTheorems {
  import opened Bytes
  import opened FieldParser
  import opened Verdict
  import opened Model
  import opened Schedule

  // ----- traces

  /** `after` continues `before` with all of `part`, or with a beginning of it when the router
      refused a command. */
  ghost predicate Follows(before: seq<Request>, after: seq<Request>, part: seq<Request>, fault: Option<Fault>)
  {
    before <= after <= before + part && (fault != Some(RouterRefused) ==> after == before + part)
  }

  lemma FollowsThen(a: seq<Request>, b: seq<Request>, c: seq<Request>, p: seq<Request>, q: seq<Request>, fault: Option<Fault>)
    requires Follows(a, b, p, None) && Follows(b, c, q, fault)
    ensures Follows(a, c, p + q, fault)
  {
    assert a + (p + q) == a + p + q;
  }

  /** Every command in positions lo..hi was answered, except that a refusal ended the run there. */
  ghost predicate Heard(script: Script, lo: nat, hi: nat, fault: Option<Fault>)
  {
    lo <= hi
    && if fault == Some(RouterRefused)
       then lo < hi && hi - 1 !in script && forall p :: lo <= p < hi - 1 ==> p in script
       else forall p :: lo <= p < hi ==> p in script
  }

  lemma {:induction false} SendGroupTrace(script: Script, w: World, commands: seq<CommandSpec>, i: nat, collect: bool)
    requires i <= |commands|
    ensures var r := SendGroup(script, w, commands, i, collect);
            Follows(w.sent, r.world.sent, Requests(commands, i, collect), r.fault)
            && Heard(script, |w.sent|, |r.world.sent|, r.fault)
            && r.world == w.(sent := r.world.sent)
            && (r.fault.Some? ==> r.fault == Some(RouterRefused))
    decreases |commands| - i
  {
    if i < |commands| {
      var s := Send(script, w, commands[i], collect);
      var rest := Requests(commands, i + 1, collect);
      if s.fault.Some? {
        assert w.sent + Requests(commands, i, collect) == s.world.sent + rest;
      } else {
        SendGroupTrace(script, s.world, commands, i + 1, collect);
        var r := SendGroup(script, s.world, commands, i + 1, collect);
        FollowsThen(w.sent, s.world.sent, r.world.sent, [Request(commands[i], collect)], rest, r.fault);
      }
    }
  }

  lemma {:induction false} EmptySelection(plan: Plan, cmd: Text, ids: seq<int>, i: nat)
    requires i <= |ids|
    ensures Selection(plan, cmd, ids, i, [])
  {
  }

  lemma FiredPartHead(plan: Plan, cmd: Text, id: int, rest: seq<int>)
    requires Key(cmd, id) in plan.tests
    ensures FiredPart(plan, cmd, [id] + rest)
            == Requests(plan.tests[Key(cmd, id)].ifTriggered, 0, false) + FiredPart(plan, cmd, rest)
  {
    assert ([id] + rest)[1..] == rest;
  }

  lemma {:induction false} RunTestsTrace(plan: Plan, script: Script, w: World, cmd: Text, ids: seq<int>, i: nat,
                                         results: seq<CmdResult>, iteration: nat)
    requires i <= |ids|
    ensures var r := RunTests(plan, script, w, cmd, ids, i, results, iteration);
            Follows(w.sent, r.world.sent, FiredPart(plan, cmd, r.fired), r.fault)
            && Heard(script, |w.sent|, |r.world.sent|, r.fault)
            && Selection(plan, cmd, ids, i, r.fired)
            && (Stops(plan) ==> |r.fired| <= 1)
            && (r.fault != Some(NoReproSection))
    decreases |ids| - i
  {
    hide TestVerdict, StoreAfter;
    if i < |ids| {
      var key := Key(cmd, ids[i]);
      if key !in plan.tests {
        RunTestsTrace(plan, script, w, cmd, ids, i + 1, results, iteration);
      } else {
        var evaluated := Evaluated(plan, w, key, results, iteration);
        var verdict := TestVerdict(ContextIn(plan, w, key, iteration), results);
        if verdict == Ok(false) {
          RunTestsTrace(plan, script, evaluated, cmd, ids, i + 1, results, iteration);
        } else if verdict == Ok(true) {
          var commands := plan.tests[key].ifTriggered;
          SendGroupTrace(script, evaluated, commands, 0, false);
          var group := SendGroup(script, evaluated, commands, 0, false);
          if group.fault.Some? || Stops(plan) {
            FiredPartHead(plan, cmd, ids[i], []);
            assert [ids[i]] + [] == [ids[i]];
            assert Requests(commands, 0, false) + [] == Requests(commands, 0, false);
            EmptySelection(plan, cmd, ids, i + 1);
            assert [ids[i]][1..] == [];
          } else {
            RunTestsTrace(plan, script, group.world, cmd, ids, i + 1, results, iteration);
            var rest := RunTests(plan, script, group.world, cmd, ids, i + 1, results, iteration);
            FiredPartHead(plan, cmd, ids[i], rest.fired);
            FollowsThen(w.sent, group.world.sent, rest.world.sent, Requests(commands, 0, false),
                        FiredPart(plan, cmd, rest.fired), rest.fault);
            assert ([ids[i]] + rest.fired)[1..] == rest.fired;
          }
        }
      }
    }
  }

  lemma RunCommandTrace(plan: Plan, script: Script, w: World, j: nat, iteration: nat)
    requires j < |plan.main|
    ensures var r := RunCommand(plan, script, w, j, iteration);
            Follows(w.sent, r.world.sent, CommandPart(plan, j, r.fired), r.fault)
            && Heard(script, |w.sent|, |r.world.sent|, r.fault)
            && LegalFired(plan, j, r.fired)
            && (r.fault != Some(NoReproSection))
  {
    hide RunTests;
    var command := plan.main[j].spec;
    var collect := Collects(plan) || command.processResult;
    var s := Send(script, w, command, collect);
    EmptySelection(plan, command.cmd, command.testIDs, 0);
    if s.fault.None? && command.cmd in plan.testedCommands {
      var results := Answer(script, w, collect);
      var matched := if collect then WithMatches(plan, s.world, j, results) else s.world;
      RunTestsTrace(plan, script, matched, command.cmd, command.testIDs, 0, results, iteration);
      var t := RunTests(plan, script, matched, command.cmd, command.testIDs, 0, results, iteration);
      FollowsThen(w.sent, s.world.sent, t.world.sent, [Request(command, collect)],
                  FiredPart(plan, command.cmd, t.fired), t.fault);
    }
  }

  // ----- completing an interrupted record

  /** The record of main commands j, j + 1, ... when nothing fires. */
  function Quiet(plan: Plan, j: nat): (record: Record)
    requires j <= |plan.main|
    ensures |record| == |plan.main| - j
    decreases |plan.main| - j
  {
    if j == |plan.main| then [] else [[]] + Quiet(plan, j + 1)
  }

  lemma {:induction false} QuietIsLegal(plan: Plan, j: nat)
    requires j <= |plan.main|
    ensures LegalMain(plan, j, Quiet(plan, j)) && !Triggered(Quiet(plan, j))
    decreases |plan.main| - j
  {
    if j < |plan.main| {
      QuietIsLegal(plan, j + 1);
      EmptySelection(plan, plan.main[j].spec.cmd, plan.main[j].spec.testIDs, 0);
      assert Quiet(plan, j)[1..] == Quiet(plan, j + 1);
      assert forall k :: 0 < k < |Quiet(plan, j)| ==> Quiet(plan, j)[k] == Quiet(plan, j + 1)[k - 1];
    }
  }

  function QuietRun(plan: Plan, iteration: nat): (records: seq<Record>)
    ensures forall k :: 0 <= k < |records| ==> |records[k]| <= |plan.main|
    decreases Times(plan) - iteration
  {
    if iteration >= Times(plan) then [] else [Quiet(plan, 0)] + QuietRun(plan, iteration + 1)
  }

  lemma {:induction false} QuietRunIsLegal(plan: Plan, iteration: nat)
    ensures LegalRun(plan, iteration, QuietRun(plan, iteration))
    decreases Times(plan) - iteration
  {
    if iteration < Times(plan) {
      QuietIsLegal(plan, 0);
      QuietRunIsLegal(plan, iteration + 1);
      assert QuietRun(plan, iteration)[1..] == QuietRun(plan, iteration + 1);
    }
  }

  lemma {:induction false} LegalMainLength(plan: Plan, j: nat, record: Record)
    requires j <= |plan.main| && LegalMain(plan, j, record)
    ensures j + |record| <= |plan.main|
    decreases |plan.main| - j
  {
    if j < |plan.main| && |record| != 1 { LegalMainLength(plan, j + 1, record[1..]); }
  }

  lemma {:induction false} LegalRunLengths(plan: Plan, iteration: nat, records: seq<Record>)
    requires LegalRun(plan, iteration, records)
    ensures forall k :: 0 <= k < |records| ==> |records[k]| <= |plan.main|
    decreases |records|
  {
    if records != [] {
      LegalMainLength(plan, 0, records[0]);
      if |records| > 1 {
        LegalRunLengths(plan, iteration + 1, records[1..]);
        assert forall k :: 0 < k < |records| ==> records[k] == records[1..][k - 1];
      }
    }
  }

  lemma MainPartHead(plan: Plan, j: nat, fired: seq<int>, rest: Record)
    requires j + 1 + |rest| <= |plan.main|
    ensures MainPart(plan, j, [fired] + rest) == CommandPart(plan, j, fired) + MainPart(plan, j + 1, rest)
  {
    assert ([fired] + rest)[1..] == rest;
  }

  /** The main group: what is sent follows the main part of what fired. The record of what fired is
      a legal one, or, when there was a fault, the beginning of one. */
  lemma {:induction false} RunMainTrace(plan: Plan, script: Script, w: World, j: nat, iteration: nat)
    returns (legal: Record)
    requires j <= |plan.main|
    ensures LegalMain(plan, j, legal)
    ensures var g := RunMain(plan, script, w, j, iteration);
            j + |g.record| <= |plan.main| && g.record <= legal && (g.fault.None? ==> legal == g.record)
            && Follows(w.sent, g.world.sent, MainPart(plan, j, g.record), g.fault)
            && Heard(script, |w.sent|, |g.world.sent|, g.fault)
            && (g.fault != Some(NoReproSection))
    decreases |plan.main| - j
  {
    hide RunCommand, LegalFired, CommandPart;
    if j == |plan.main| {
      legal := [];
    } else {
      var s := RunCommand(plan, script, w, j, iteration);
      RunCommandTrace(plan, script, w, j, iteration);
      var tail: Record := [];
      if s.fault.Some? || (Stops(plan) && s.fired != []) {
        if !(Stops(plan) && s.fired != []) {
          tail := Quiet(plan, j + 1);
          QuietIsLegal(plan, j + 1);
        }
        MainPartHead(plan, j, s.fired, []);
        assert CommandPart(plan, j, s.fired) + MainPart(plan, j + 1, []) == CommandPart(plan, j, s.fired);
        assert [s.fired] + [] == [s.fired];
      } else {
        tail := RunMainTrace(plan, script, s.world, j + 1, iteration);
        var g := RunMain(plan, script, s.world, j + 1, iteration);
        MainPartHead(plan, j, s.fired, g.record);
        FollowsThen(w.sent, s.world.sent, g.world.sent, CommandPart(plan, j, s.fired),
                    MainPart(plan, j + 1, g.record), g.fault);
      }
      legal := [s.fired] + tail;
      assert legal[1..] == tail;
    }
  }

  lemma RunPartHead(plan: Plan, record: Record, rest: seq<Record>)
    requires |record| <= |plan.main| && forall k :: 0 <= k < |rest| ==> |rest[k]| <= |plan.main|
    ensures RunPart(plan, [record] + rest) == IterationPart(plan, record) + RunPart(plan, rest)
  {
    assert ([record] + rest)[1..] == rest;
  }

  /** A legal run that begins with an iteration that ended the run before its time. */
  lemma CloseRun(plan: Plan, iteration: nat, record: Record) returns (legal: seq<Record>)
    requires iteration < Times(plan) && LegalMain(plan, 0, record)
    ensures LegalRun(plan, iteration, legal) && legal != [] && legal[0] == record
    ensures Stops(plan) && Triggered(record) ==> legal == [record]
  {
    var tail: seq<Record> := if Stops(plan) && Triggered(record) then [] else QuietRun(plan, iteration + 1);
    legal := [record] + tail;
    assert legal[1..] == tail;
    if !(Stops(plan) && Triggered(record)) { QuietRunIsLegal(plan, iteration + 1); }
  }

  /** What one iteration sends: its whole part of the schedule, a beginning of it when the router
      refused a command, or its main part when a test or the missing repro section ended it. */
  ghost predicate IterationSent(plan: Plan, before: seq<Request>, after: seq<Request>, record: Record, fault: Option<Fault>)
    requires |record| <= |plan.main|
  {
    before <= after <= before + IterationPart(plan, record)
    && (fault.None? ==> after == before + IterationPart(plan, record))
    && (fault.Some? && fault != Some(RouterRefused) ==> after == before + MainPart(plan, 0, record))
  }

  /** One iteration follows its part of the schedule. */
  lemma IterateTrace(plan: Plan, script: Script, w: World, iteration: nat) returns (legal: Record)
    ensures LegalMain(plan, 0, legal)
    ensures var step := Iterate(plan, script, w, iteration);
            |step.record| <= |plan.main| && step.record <= legal
            && IterationSent(plan, w.sent, step.world.sent, step.record, step.fault)
            && Heard(script, |w.sent|, |step.world.sent|, step.fault)
            && (step.fault.None? ==> legal == step.record && (step.last <==> Stops(plan) && Triggered(step.record)))
  {
    hide RunMain, LegalMain, MainPart, SendGroup, Triggered;
    var group := RunMain(plan, script, w, 0, iteration);
    legal := RunMainTrace(plan, script, w, 0, iteration);
    var main := MainPart(plan, 0, group.record);
    if group.fault.None? && Triggered(group.record) && plan.repro.Some? {
      var postMortem := plan.repro.value.postMortem;
      SendGroupTrace(script, group.world, postMortem, 0, true);
      var s := SendGroup(script, group.world, postMortem, 0, true);
      FollowsThen(w.sent, group.world.sent, s.world.sent, main, Requests(postMortem, 0, true), s.fault);
    } else {
      assert main <= IterationPart(plan, group.record);
      assert w.sent + main <= w.sent + IterationPart(plan, group.record);
      assert main + [] == main;
    }
  }

  /** What a run sends: the schedule of all it recorded, or a beginning of it when the router refused
      a command; when a test or the missing repro section ended the run, the schedule up to the main
      part of the last iteration, as far as that was recorded. */
  ghost predicate RunSent(plan: Plan, before: seq<Request>, after: seq<Request>, records: seq<Record>, fault: Option<Fault>)
    requires forall k :: 0 <= k < |records| ==> |records[k]| <= |plan.main|
  {
    before <= after <= before + RunPart(plan, records)
    && (fault.None? ==> after == before + RunPart(plan, records))
    && (fault.Some? && fault != Some(RouterRefused) ==>
          records != []
          && after == before + RunPart(plan, records[..|records| - 1]) + MainPart(plan, 0, records[|records| - 1]))
  }

  /** `legal` goes on where `recorded` stops, perhaps in the middle of an iteration. */
  ghost predicate Extends(recorded: seq<Record>, legal: seq<Record>)
  {
    |recorded| <= |legal|
    && (forall k :: 0 <= k < |recorded| - 1 ==> recorded[k] == legal[k])
    && (recorded != [] ==> recorded[|recorded| - 1] <= legal[|recorded| - 1])
  }

  /** The record of a run is legal, or the beginning of a legal one after a fault, and what was sent
      is what it schedules. */
  ghost predicate OnSchedule(plan: Plan, iteration: nat, before: seq<Request>, run: Run, legal: seq<Record>)
  {
    LegalRun(plan, iteration, legal) && Extends(run.records, legal) && (run.fault.None? ==> legal == run.records)
    && (forall k :: 0 <= k < |run.records| ==> |run.records[k]| <= |plan.main|)
    && RunSent(plan, before, run.world.sent, run.records, run.fault)
  }

  lemma {:induction false} RunTrace(plan: Plan, script: Script, w: World, iteration: nat) returns (legal: seq<Record>)
    ensures var run := RunFrom(plan, script, w, iteration);
            OnSchedule(plan, iteration, w.sent, run, legal) && Heard(script, |w.sent|, |run.world.sent|, run.fault)
    decreases Times(plan) - iteration
  {
    hide Iterate, LegalMain, IterationPart, Triggered;
    if iteration >= Times(plan) {
      legal := [];
    } else {
      var step := Iterate(plan, script, w, iteration);
      var record := IterateTrace(plan, script, w, iteration);
      if step.fault.Some? || step.last {
        legal := CloseRun(plan, iteration, record);
        LastIterationSent(plan, w.sent, step.world.sent, step.record, step.fault);
      } else {
        legal := NextIteration(plan, script, w, step.world, iteration, record);
      }
    }
  }

  lemma LastIterationSent(plan: Plan, before: seq<Request>, after: seq<Request>, record: Record, fault: Option<Fault>)
    requires |record| <= |plan.main| && IterationSent(plan, before, after, record, fault)
    ensures RunSent(plan, before, after, [record], fault)
  {
    hide MainPart, IterationPart;
    RunPartHead(plan, record, []);
    assert [record] + [] == [record] && [record][..0] == [];
    assert RunPart(plan, []) == [];
    assert IterationPart(plan, record) + [] == IterationPart(plan, record);
    assert before + [] == before;
  }

  lemma HeardThen(script: Script, lo: nat, mid: nat, hi: nat, fault: Option<Fault>)
    requires Heard(script, lo, mid, None) && Heard(script, mid, hi, fault)
    ensures Heard(script, lo, hi, fault)
  {
  }

  /** A finished iteration followed by the rest of the run. */
  lemma {:induction false} NextIteration(plan: Plan, script: Script, w: World, next: World, iteration: nat, record: Record)
    returns (legal: seq<Record>)
    requires iteration < Times(plan) && LegalMain(plan, 0, record) && |record| <= |plan.main|
    requires !(Stops(plan) && Triggered(record))
    requires IterationSent(plan, w.sent, next.sent, record, None)
    requires Heard(script, |w.sent|, |next.sent|, None)
    ensures var rest := RunFrom(plan, script, next, iteration + 1);
            OnSchedule(plan, iteration, w.sent, Before(record, rest), legal)
            && Heard(script, |w.sent|, |rest.world.sent|, rest.fault)
    decreases Times(plan) - iteration, 0
  {
    var tail := RunTrace(plan, script, next, iteration + 1);
    var rest := RunFrom(plan, script, next, iteration + 1);
    legal := [record] + tail;
    hide RunFrom, OnSchedule, IterationSent, Heard;
    LaterOnSchedule(plan, iteration, w.sent, next.sent, record, rest, tail);
    HeardThen(script, |w.sent|, |next.sent|, |rest.world.sent|, rest.fault);
  }

  lemma LaterOnSchedule(plan: Plan, iteration: nat, before: seq<Request>, next: seq<Request>, record: Record,
                        rest: Run, tail: seq<Record>)
    requires iteration < Times(plan) && LegalMain(plan, 0, record) && |record| <= |plan.main|
    requires !(Stops(plan) && Triggered(record)) && IterationSent(plan, before, next, record, None)
    requires OnSchedule(plan, iteration + 1, next, rest, tail)
    ensures OnSchedule(plan, iteration, before, Before(record, rest), [record] + tail)
  {
    assert ([record] + tail)[1..] == tail;
    hide LegalMain, Triggered, RunSent, IterationSent;
    LaterSent(plan, before, next, rest.world.sent, record, rest.records, rest.fault);
    ExtendsMore(record, rest.records, tail);
    hide Extends;
  }

  lemma ExtendsMore(record: Record, recorded: seq<Record>, legal: seq<Record>)
    requires Extends(recorded, legal)
    ensures Extends([record] + recorded, [record] + legal)
  {
  }

  lemma LaterSent(plan: Plan, before: seq<Request>, next: seq<Request>, after: seq<Request>, record: Record,
                  rest: seq<Record>, fault: Option<Fault>)
    requires |record| <= |plan.main| && IterationSent(plan, before, next, record, None)
    requires forall k :: 0 <= k < |rest| ==> |rest[k]| <= |plan.main|
    requires RunSent(plan, next, after, rest, fault)
    ensures forall k :: 0 <= k < |[record] + rest| ==> |([record] + rest)[k]| <= |plan.main|
    ensures RunSent(plan, before, after, [record] + rest, fault)
  {
    var part := IterationPart(plan, record);
    hide IterationPart, MainPart;
    RunPartHead(plan, record, rest);
    assert before + part + RunPart(plan, rest) == before + (part + RunPart(plan, rest));
    if fault.Some? && fault != Some(RouterRefused) {
      var most, last := rest[..|rest| - 1], rest[|rest| - 1];
      RunPartHead(plan, record, most);
      assert ([record] + rest)[..|rest|] == [record] + most;
      assert before + part + RunPart(plan, most) == before + (part + RunPart(plan, most));
    }
  }

  /** For every command file and every router, what a run sends is the schedule of the tests that
      fired: all of it when there is no fault, a beginning of it when the router refuses a command,
      and exactly the part before the failing test when a test fails. */
  lemma RunFollowsSchedule(plan: Plan, script: Script, w: World)
    ensures exists legal :: OnSchedule(plan, 0, w.sent, RunFrom(plan, script, w, 0), legal)
  {
    var legal := RunTrace(plan, script, w, 0);
    assert OnSchedule(plan, 0, w.sent, RunFrom(plan, script, w, 0), legal);
  }

  /** The run fails with a router error exactly when some command it sent was refused, and that
      command is then the last one sent. */
  lemma RefusalEndsRun(plan: Plan, script: Script, w: World)
    ensures var run := RunFrom(plan, script, w, 0);
            (run.fault == Some(RouterRefused) <==> exists p :: |w.sent| <= p < |run.world.sent| && p !in script)
            && (forall p :: |w.sent| <= p < |run.world.sent| && p !in script ==> p == |run.world.sent| - 1)
  {
    var legal := RunTrace(plan, script, w, 0);
    var run := RunFrom(plan, script, w, 0);
    if run.fault == Some(RouterRefused) {
      var last := |run.world.sent| - 1;
      assert |w.sent| <= last < |run.world.sent| && last !in script;
    }
  }

  lemma {:induction false} ReproNeverMissing(plan: Plan, script: Script, w: World, iteration: nat)
    requires plan.repro.Some?
    ensures RunFrom(plan, script, w, iteration).fault != Some(NoReproSection)
    decreases Times(plan) - iteration
  {
    hide RunMain, SendGroup, Triggered;
    if iteration < Times(plan) {
      var legal := RunMainTrace(plan, script, w, 0, iteration);
      SendGroupTrace(script, RunMain(plan, script, w, 0, iteration).world, plan.repro.value.postMortem, 0, true);
      ReproNeverMissing(plan, script, Iterate(plan, script, w, iteration).world, iteration + 1);
    }
  }

  /** The run reads the missing repro section, which the program does not survive, exactly when
      the file has none and its only iteration gets through with something triggered. */
  lemma MissingReproExactly(plan: Plan, script: Script, w: World)
    ensures RunFrom(plan, script, w, 0).fault == Some(NoReproSection)
            <==> plan.repro.None? && var group := RunMain(plan, script, w, 0, 0);
                                     group.fault.None? && Triggered(group.record)
  {
    hide RunMain, SendGroup, Triggered;
    if plan.repro.Some? {
      ReproNeverMissing(plan, script, w, 0);
    } else {
      var legal := RunMainTrace(plan, script, w, 0, 0);
    }
  }

  // ----- stop_when_triggered

  /** All main commands from j up to n, nothing else. */
  function MainOnly(plan: Plan, j: nat, n: nat): (r: seq<Request>)
    requires j <= n <= |plan.main|
    decreases n - j
  {
    if j == n then []
    else [Request(plan.main[j].spec, Collects(plan) || plan.main[j].spec.processResult)] + MainOnly(plan, j + 1, n)
  }

  function QuietRounds(plan: Plan, n: nat): (r: seq<Request>)
  {
    if n == 0 then [] else MainOnly(plan, 0, |plan.main|) + QuietRounds(plan, n - 1)
  }

  /** n untriggered iterations, then the main group up to command m, the commands of the one test
      that fired there, and the post-mortem group. */
  function StoppedSchedule(plan: Plan, n: nat, m: nat, id: int): (r: seq<Request>)
    requires plan.repro.Some? && m < |plan.main|
  {
    QuietRounds(plan, n) + MainOnly(plan, 0, m + 1) + FiredPart(plan, plan.main[m].spec.cmd, [id])
    + Requests(plan.repro.value.postMortem, 0, true)
  }

  lemma {:induction false} QuietMain(plan: Plan, j: nat, record: Record)
    requires j <= |plan.main| && LegalMain(plan, j, record) && !Triggered(record)
    ensures j + |record| == |plan.main| && MainPart(plan, j, record) == MainOnly(plan, j, |plan.main|)
    decreases |plan.main| - j
  {
    if j < |plan.main| {
      assert record[0] == [];
      forall k | 0 <= k < |record| - 1 ensures record[1..][k] == [] { assert record[k + 1] == []; }
      QuietMain(plan, j + 1, record[1..]);
    }
  }

  lemma OneFired(plan: Plan, j: nat, fired: seq<int>)
    requires j < |plan.main| && Stops(plan) && LegalFired(plan, j, fired)
    ensures |fired| <= 1
  {
  }

  /** With stop_when_triggered, a triggered iteration ends at the one command that fired, with one test. */
  lemma {:induction false} StoppedMain(plan: Plan, j: nat, record: Record)
    requires j <= |plan.main| && Stops(plan) && LegalMain(plan, j, record) && Triggered(record)
    ensures j + |record| <= |plan.main| && |record[|record| - 1]| == 1
    ensures var m := j + |record| - 1;
            MainPart(plan, j, record)
            == MainOnly(plan, j, m + 1) + FiredPart(plan, plan.main[m].spec.cmd, record[|record| - 1])
    decreases |plan.main| - j
  {
    hide LegalFired, Requests, CommandPart, FiredPart, MainPart, MainOnly;
    var fired, rest := record[0], record[1..];
    assert record == [fired] + rest;
    if fired != [] {
      OneFired(plan, j, fired);
      assert rest == [] && record == [fired];
      LastCommand(plan, j, fired);
    } else {
      TriggeredLater(record);
      StoppedMain(plan, j + 1, rest);
      QuietCommand(plan, j, rest, j + |record|);
    }
  }

  lemma LastCommand(plan: Plan, j: nat, fired: seq<int>)
    requires j < |plan.main|
    ensures MainPart(plan, j, [fired]) == MainOnly(plan, j, j + 1) + FiredPart(plan, plan.main[j].spec.cmd, fired)
  {
    hide FiredPart;
    assert [fired][1..] == [] && MainPart(plan, j + 1, []) == [];
    assert MainOnly(plan, j + 1, j + 1) == [];
  }

  /** A main command that fired nothing, in front of more of the schedule. */
  lemma QuietCommand(plan: Plan, j: nat, rest: Record, n: nat)
    requires j < |plan.main| && j + 1 + |rest| <= |plan.main| && j < n <= |plan.main|
    ensures MainPart(plan, j, [[]] + rest)
            == [Request(plan.main[j].spec, Collects(plan) || plan.main[j].spec.processResult)] + MainPart(plan, j + 1, rest)
    ensures MainOnly(plan, j, n)
            == [Request(plan.main[j].spec, Collects(plan) || plan.main[j].spec.processResult)] + MainOnly(plan, j + 1, n)
  {
    MainPartHead(plan, j, [], rest);
    assert FiredPart(plan, plan.main[j].spec.cmd, []) == [];
  }

  lemma TriggeredLater(record: Record)
    requires Triggered(record) && record[0] == []
    ensures Triggered(record[1..])
  {
    var k :| 0 <= k < |record| && record[k] != [];
    assert record[1..][k - 1] == record[k];
  }

  /** With stop_when_triggered, what a triggered run sends: no main command after the first
      trigger, and the post-mortem group once, at the very end. */
  lemma {:induction false} StoppedRun(plan: Plan, iteration: nat, records: seq<Record>) returns (m: nat, id: int)
    requires Stops(plan) && LegalRun(plan, iteration, records)
    requires records != [] && Triggered(records[|records| - 1])
    ensures forall k :: 0 <= k < |records| ==> |records[k]| <= |plan.main|
    ensures m < |plan.main| && |records[|records| - 1]| == m + 1 && records[|records| - 1][m] == [id]
    ensures RunPart(plan, records) == StoppedSchedule(plan, |records| - 1, m, id)
    decreases |records|
  {
    LegalRunLengths(plan, iteration, records);
    var record, rest := records[0], records[1..];
    assert records == [record] + rest;
    if Triggered(record) {
      StoppedMain(plan, 0, record);
      m, id := |record| - 1, record[|record| - 1][0];
      assert [id] == record[|record| - 1] && rest == [];
      StoppedAtOnce(plan, record, m, id);
    } else {
      assert |records| > 1 && rest[|rest| - 1] == records[|records| - 1];
      m, id := StoppedRun(plan, iteration + 1, rest);
      QuietMain(plan, 0, record);
      hide LegalRun, LegalMain, MainPart, StoppedSchedule;
      RunPartHead(plan, record, rest);
      assert IterationPart(plan, record) == MainOnly(plan, 0, |plan.main|);
      StoppedLater(plan, |rest| - 1, m, id);
    }
  }

  lemma StoppedAtOnce(plan: Plan, record: Record, m: nat, id: int)
    requires plan.repro.Some? && m < |plan.main| && |record| == m + 1 && Triggered(record)
    requires MainPart(plan, 0, record) == MainOnly(plan, 0, m + 1) + FiredPart(plan, plan.main[m].spec.cmd, [id])
    ensures RunPart(plan, [record]) == StoppedSchedule(plan, 0, m, id)
  {
    hide MainPart, MainOnly, FiredPart, Requests;
    assert [record][1..] == [];
    assert QuietRounds(plan, 0) + MainOnly(plan, 0, m + 1) == MainOnly(plan, 0, m + 1);
  }

  lemma StoppedLater(plan: Plan, n: nat, m: nat, id: int)
    requires plan.repro.Some? && m < |plan.main|
    ensures StoppedSchedule(plan, n + 1, m, id) == MainOnly(plan, 0, |plan.main|) + StoppedSchedule(plan, n, m, id)
  {
  }

  // ----- how many iterations

  lemma {:induction false} LengthFrom(plan: Plan, script: Script, w: World, iteration: nat)
    requires iteration <= Times(plan)
    ensures var run := RunFrom(plan, script, w, iteration);
            |run.records| <= Times(plan) - iteration && (iteration < Times(plan) ==> run.records != [])
            && (run.fault.None? && (!Stops(plan) || forall k :: 0 <= k < |run.records| ==> !Triggered(run.records[k])) ==>
                  |run.records| == Times(plan) - iteration)
    decreases Times(plan) - iteration
  {
    hide RunMain, SendGroup, Triggered;
    if iteration < Times(plan) {
      var step := Iterate(plan, script, w, iteration);
      if step.fault.None? && !step.last {
        LengthFrom(plan, script, step.world, iteration + 1);
        var rest := RunFrom(plan, script, step.world, iteration + 1);
        assert forall k :: 0 <= k < |rest.records| ==> ([step.record] + rest.records)[k + 1] == rest.records[k];
      } else if step.fault.None? {
        var run := RunFrom(plan, script, w, iteration);
        assert run.records == [step.record] && Triggered(run.records[0]);
      }
    }
  }

  /** A run has at most as many iterations as the repro section says, one when there is no section or
      the number is not positive, and never none. It has exactly that many unless a fault ends it, or
      something fires and the section asks to stop then. */
  lemma RunLength(plan: Plan, script: Script, w: World)
    ensures var records, fault := RunFrom(plan, script, w, 0).records, RunFrom(plan, script, w, 0).fault;
            var n := if plan.repro.Some? && plan.repro.value.times > 0 then plan.repro.value.times else 1;
            1 <= |records| <= n
            && (fault.None? && (plan.repro.None? || !plan.repro.value.stopWhenTriggered) ==> |records| == n)
            && (fault.None? && (forall k, j :: 0 <= k < |records| && 0 <= j < |records[k]| ==> records[k][j] == []) ==>
                  |records| == n)
  {
    hide RunFrom;
    LengthFrom(plan, script, w, 0);
  }

  /** With stop_when_triggered, a run that ends untriggered sent its main group every time. */
  lemma {:induction false} UntriggeredRun(plan: Plan, iteration: nat, records: seq<Record>)
    requires Stops(plan) && iteration <= Times(plan) && LegalRun(plan, iteration, records)
    requires records != [] ==> !Triggered(records[|records| - 1])
    ensures iteration + |records|
            == if plan.repro.Some? && plan.repro.value.times > 0 then plan.repro.value.times else 1
    ensures forall k :: 0 <= k < |records| ==> |records[k]| <= |plan.main|
    ensures RunPart(plan, records) == QuietRounds(plan, |records|)
    decreases |records|
  {
    LegalRunLengths(plan, iteration, records);
    if iteration < Times(plan) {
      var record, rest := records[0], records[1..];
      assert records == [record] + rest;
      assert rest != [] ==> rest[|rest| - 1] == records[|records| - 1];
      UntriggeredRun(plan, iteration + 1, rest);
      QuietMain(plan, 0, record);
      hide LegalRun, LegalMain, MainPart;
      RunPartHead(plan, record, rest);
      assert IterationPart(plan, record) == MainOnly(plan, 0, |plan.main|);
    }
  }

  lemma SentAll(plan: Plan, before: seq<Request>, run: Run, legal: seq<Record>)
    requires OnSchedule(plan, 0, before, run, legal) && run.fault.None?
    ensures legal == run.records != [] && LegalRun(plan, 0, legal)
    ensures forall k :: 0 <= k < |legal| ==> |legal[k]| <= |plan.main|
    ensures run.world.sent == before + RunPart(plan, legal)
  {
  }

  /** Everything a run with stop_when_triggered sends when no fault ends it: its main group as often
      as configured, or the stopped schedule of the one test that fired. */
  lemma StoppingRunSends(plan: Plan, script: Script, w: World) returns (m: nat, id: int)
    requires plan.repro.Some? && plan.repro.value.stopWhenTriggered && RunFrom(plan, script, w, 0).fault.None?
    ensures var run := RunFrom(plan, script, w, 0);
            var times := if plan.repro.value.times > 0 then plan.repro.value.times else 1;
            run.records != []
            && if Triggered(run.records[|run.records| - 1])
               then var last := run.records[|run.records| - 1];
                    m < |plan.main| && |last| == m + 1 && last[m] == [id]
                    && run.world.sent == w.sent + StoppedSchedule(plan, |run.records| - 1, m, id)
               else |run.records| == times && run.world.sent == w.sent + QuietRounds(plan, times)
  {
    hide RunPart, StoppedSchedule, QuietRounds, RunFrom, LegalRun, Triggered, OnSchedule, Heard;
    var legal := RunTrace(plan, script, w, 0);
    SentAll(plan, w.sent, RunFrom(plan, script, w, 0), legal);
    m, id := 0, 0;
    if Triggered(legal[|legal| - 1]) {
      m, id := StoppedRun(plan, 0, legal);
    } else {
      UntriggeredRun(plan, 0, legal);
    }
  }

  // ----- what fires

  ghost function VerdictIn(plan: Plan, w: World, key: Key, results: seq<CmdResult>, iteration: nat): (r: Result<bool, Error>)
    requires key in plan.tests
  {
    TestVerdict(ContextIn(plan, w, key, iteration), results)
  }

  /** The ids among ids[i..] whose test exists and triggers on the results, in order. */
  ghost function Firing(plan: Plan, w: World, cmd: Text, ids: seq<int>, i: nat, results: seq<CmdResult>, iteration: nat): (r: seq<int>)
    requires i <= |ids|
    decreases |ids| - i
  {
    if i == |ids| then []
    else
      (if Key(cmd, ids[i]) in plan.tests && VerdictIn(plan, w, Key(cmd, ids[i]), results, iteration) == Ok(true)
       then [ids[i]] else [])
      + Firing(plan, w, cmd, ids, i + 1, results, iteration)
  }

  function AtMostOne(s: seq<int>): (r: seq<int>)
  {
    if s == [] then [] else [s[0]]
  }

  /** Both worlds show every test the same entry of the previous iteration. */
  ghost predicate SamePrevious(v: World, w: World, iteration: nat)
  {
    forall key :: At(StoreOf(v, key), iteration - 1) == At(StoreOf(w, key), iteration - 1)
  }

  /** What a list of tests recorded as fired accords with `firing`: all of it, or with
      stop_when_triggered the first; when a fault ended the list, a beginning of that. */
  predicate Accords(plan: Plan, r: Step, firing: seq<int>)
  {
    var expected := if Stops(plan) then AtMostOne(firing) else firing;
    r.fired <= expected && (r.fault.None? ==> r.fired == expected)
  }

  lemma AccordsWithNone(plan: Plan, r: Step, firing: seq<int>)
    requires r.fired == [] && (r.fault.None? ==> firing == [])
    ensures Accords(plan, r, firing)
  {
  }

  lemma AccordsAtEnd(plan: Plan, r: Step, id: int, firing: seq<int>)
    requires r.fired == [id] && (r.fault.Some? || Stops(plan))
    ensures Accords(plan, r, [id] + firing)
  {
  }

  lemma AccordsLater(plan: Plan, rest: Step, id: int, firing: seq<int>)
    requires Accords(plan, rest, firing) && !Stops(plan)
    ensures Accords(plan, rest.(fired := [id] + rest.fired), [id] + firing)
  {
  }

  /** The tests that fire are exactly those whose verdict, taken in the world before the command's
      tests ran, is true; with stop_when_triggered, the first of them. When a fault ends the list,
      they are the first of these. */
  lemma {:induction false} TestsThatFire(plan: Plan, script: Script, w: World, start: World, cmd: Text, ids: seq<int>,
                                         i: nat, results: seq<CmdResult>, iteration: nat)
    requires i <= |ids| && SamePrevious(w, start, iteration)
    ensures Accords(plan, RunTests(plan, script, w, cmd, ids, i, results, iteration),
                    Firing(plan, start, cmd, ids, i, results, iteration))
    decreases |ids| - i
  {
    hide TestVerdict, StoreAfter, Accords;
    if i == |ids| {
      AccordsWithNone(plan, RunTests(plan, script, w, cmd, ids, i, results, iteration), []);
      return;
    }
    var key := Key(cmd, ids[i]);
    var later := Firing(plan, start, cmd, ids, i + 1, results, iteration);
    assert [] + later == later;
    if key !in plan.tests {
      TestsThatFire(plan, script, w, start, cmd, ids, i + 1, results, iteration);
    } else {
      var evaluated := Evaluated(plan, w, key, results, iteration);
      EvaluatedKeepsHistory(plan, w, key, results, iteration);
      assert ContextIn(plan, w, key, iteration) == ContextIn(plan, start, key, iteration);
      var verdict := TestVerdict(ContextIn(plan, w, key, iteration), results);
      if verdict == Ok(false) {
        TestsThatFire(plan, script, evaluated, start, cmd, ids, i + 1, results, iteration);
      } else if verdict == Ok(true) {
        SendGroupTrace(script, evaluated, plan.tests[key].ifTriggered, 0, false);
        var group := SendGroup(script, evaluated, plan.tests[key].ifTriggered, 0, false);
        assert SamePrevious(group.world, start, iteration);
        if group.fault.Some? || Stops(plan) {
          AccordsAtEnd(plan, Step(group.world, [ids[i]], group.fault), ids[i], later);
        } else {
          TestsThatFire(plan, script, group.world, start, cmd, ids, i + 1, results, iteration);
          AccordsLater(plan, RunTests(plan, script, group.world, cmd, ids, i + 1, results, iteration), ids[i], later);
        }
      } else {
        AccordsWithNone(plan, RunTests(plan, script, w, cmd, ids, i, results, iteration), later);
      }
    }
  }

  /** When a test fails, it is the first whose verdict is an error; the tests before it have fired or
      not as their verdicts say, and with stop_when_triggered none of them fired. */
  lemma {:induction false} TestThatFails(plan: Plan, script: Script, w: World, start: World, cmd: Text, ids: seq<int>,
                                         i: nat, results: seq<CmdResult>, iteration: nat)
    returns (k: nat)
    requires i <= |ids| && SamePrevious(w, start, iteration)
    requires var fault := RunTests(plan, script, w, cmd, ids, i, results, iteration).fault;
             fault.Some? && fault.value.TestFailed?
    ensures i <= k < |ids| && Key(cmd, ids[k]) in plan.tests
    ensures var r := RunTests(plan, script, w, cmd, ids, i, results, iteration);
            VerdictIn(plan, start, Key(cmd, ids[k]), results, iteration) == Err(r.fault.value.error)
            && r.fired == Firing(plan, start, cmd, ids[..k], i, results, iteration)
            && (Stops(plan) ==> r.fired == [])
    decreases |ids| - i
  {
    hide TestVerdict, StoreAfter;
    var key := Key(cmd, ids[i]);
    if key !in plan.tests {
      k := TestThatFails(plan, script, w, start, cmd, ids, i + 1, results, iteration);
    } else {
      var evaluated := Evaluated(plan, w, key, results, iteration);
      EvaluatedKeepsHistory(plan, w, key, results, iteration);
      assert ContextIn(plan, w, key, iteration) == ContextIn(plan, start, key, iteration);
      var verdict := TestVerdict(ContextIn(plan, w, key, iteration), results);
      if verdict == Ok(false) {
        k := TestThatFails(plan, script, evaluated, start, cmd, ids, i + 1, results, iteration);
      } else if verdict == Ok(true) {
        SendGroupTrace(script, evaluated, plan.tests[key].ifTriggered, 0, false);
        var group := SendGroup(script, evaluated, plan.tests[key].ifTriggered, 0, false);
        assert SamePrevious(group.world, start, iteration);
        k := TestThatFails(plan, script, group.world, start, cmd, ids, i + 1, results, iteration);
      } else {
        k := i;
      }
    }
  }

  /** A command whose output is not collected cannot trigger anything. */
  lemma {:induction false} UncollectedNeverFires(plan: Plan, w: World, cmd: Text, ids: seq<int>, i: nat, iteration: nat)
    requires i <= |ids|
    ensures Firing(plan, w, cmd, ids, i, [], iteration) == []
    decreases |ids| - i
  {
    if i < |ids| { UncollectedNeverFires(plan, w, cmd, ids, i + 1, iteration); }
  }

  // ----- value history over whole runs

  /** Only entries of iterations `from` and later may differ, and single entries stay single. */
  ghost predicate KeepsHistory(before: World, after: World, from: nat)
  {
    (forall key, i :: i < from ==> At(StoreOf(after, key), i) == At(StoreOf(before, key), i))
    && (SingleEntries(before) ==> SingleEntries(after))
  }

  /** Every recorded iteration of every test holds exactly one field. */
  ghost predicate SingleEntries(w: World)
  {
    forall key, i :: i in StoreOf(w, key) ==> |StoreOf(w, key)[i].fields| == 1
  }

  lemma EvaluatedKeepsHistory(plan: Plan, w: World, key: Key, results: seq<CmdResult>, iteration: nat)
    requires key in plan.tests
    ensures KeepsHistory(w, Evaluated(plan, w, key, results, iteration), iteration)
  {
    var after := Evaluated(plan, w, key, results, iteration);
    var cx := ContextIn(plan, w, key, iteration);
    assert StoreOf(after, key) == StoreAfter(cx, StoreOf(w, key), results);
    assert forall k :: k != key ==> StoreOf(after, k) == StoreOf(w, k);
    hide TestVerdict;
  }

  lemma KeepsThen(a: World, b: World, c: World, from: nat, later: nat)
    requires KeepsHistory(a, b, from) && KeepsHistory(b, c, later) && from <= later
    ensures KeepsHistory(a, c, from)
  {
  }

  lemma SameStoresKeepHistory(a: World, b: World, from: nat)
    requires a.stores == b.stores
    ensures KeepsHistory(a, b, from)
  {
    assert forall key :: StoreOf(a, key) == StoreOf(b, key);
  }

  lemma {:induction false} RunTestsKeepsHistory(plan: Plan, script: Script, w: World, cmd: Text, ids: seq<int>, i: nat,
                                                results: seq<CmdResult>, iteration: nat)
    requires i <= |ids|
    ensures KeepsHistory(w, RunTests(plan, script, w, cmd, ids, i, results, iteration).world, iteration)
    decreases |ids| - i
  {
    hide TestVerdict, StoreAfter, KeepsHistory, Evaluated;
    if i == |ids| {
      SameStoresKeepHistory(w, w, iteration);
    } else {
      var key := Key(cmd, ids[i]);
      if key !in plan.tests {
        RunTestsKeepsHistory(plan, script, w, cmd, ids, i + 1, results, iteration);
      } else {
        var evaluated := Evaluated(plan, w, key, results, iteration);
        EvaluatedKeepsHistory(plan, w, key, results, iteration);
        var group := SendGroup(script, evaluated, plan.tests[key].ifTriggered, 0, false);
        SendGroupTrace(script, evaluated, plan.tests[key].ifTriggered, 0, false);
        SameStoresKeepHistory(evaluated, group.world, iteration);
        KeepsThen(w, evaluated, group.world, iteration, iteration);
        RunTestsKeepsHistory(plan, script, evaluated, cmd, ids, i + 1, results, iteration);
        KeepsThen(w, evaluated, RunTests(plan, script, evaluated, cmd, ids, i + 1, results, iteration).world, iteration, iteration);
        RunTestsKeepsHistory(plan, script, group.world, cmd, ids, i + 1, results, iteration);
        KeepsThen(w, group.world, RunTests(plan, script, group.world, cmd, ids, i + 1, results, iteration).world, iteration, iteration);
      }
    }
  }

  lemma RunCommandKeepsHistory(plan: Plan, script: Script, w: World, j: nat, iteration: nat)
    requires j < |plan.main|
    ensures KeepsHistory(w, RunCommand(plan, script, w, j, iteration).world, iteration)
  {
    hide KeepsHistory, RunTests;
    var command := plan.main[j].spec;
    var collect := Collects(plan) || command.processResult;
    var s := Send(script, w, command, collect);
    var results := Answer(script, w, collect);
    var matched := if collect then WithMatches(plan, s.world, j, results) else s.world;
    var t := RunTests(plan, script, matched, command.cmd, command.testIDs, 0, results, iteration);
    SameStoresKeepHistory(w, matched, iteration);
    SameStoresKeepHistory(w, s.world, iteration);
    RunTestsKeepsHistory(plan, script, matched, command.cmd, command.testIDs, 0, results, iteration);
    KeepsThen(w, matched, t.world, iteration, iteration);
    SameStoresKeepHistory(t.world, WithTriggered(t.world, j, t.fired), iteration);
    KeepsThen(w, t.world, WithTriggered(t.world, j, t.fired), iteration, iteration);
  }

  lemma {:induction false} RunMainKeepsHistory(plan: Plan, script: Script, w: World, j: nat, iteration: nat)
    requires j <= |plan.main|
    ensures KeepsHistory(w, RunMain(plan, script, w, j, iteration).world, iteration)
    decreases |plan.main| - j
  {
    hide KeepsHistory, RunCommand;
    if j == |plan.main| {
      SameStoresKeepHistory(w, w, iteration);
    } else {
      var s := RunCommand(plan, script, w, j, iteration);
      RunCommandKeepsHistory(plan, script, w, j, iteration);
      RunMainKeepsHistory(plan, script, s.world, j + 1, iteration);
      KeepsThen(w, s.world, RunMain(plan, script, s.world, j + 1, iteration).world, iteration, iteration);
    }
  }

  /** Whatever iterations `iteration` and later do, no entry of an earlier iteration changes, and
      every entry that exists at the end holds exactly one field. */
  lemma {:induction false} RunKeepsHistory(plan: Plan, script: Script, w: World, iteration: nat)
    ensures KeepsHistory(w, RunFrom(plan, script, w, iteration).world, iteration)
    decreases Times(plan) - iteration
  {
    hide KeepsHistory, RunMain;
    if iteration >= Times(plan) {
      SameStoresKeepHistory(w, w, iteration);
    } else {
      var group := RunMain(plan, script, w, 0, iteration);
      RunMainKeepsHistory(plan, script, w, 0, iteration);
      RunKeepsHistory(plan, script, group.world, iteration + 1);
      KeepsThen(w, group.world, RunFrom(plan, script, group.world, iteration + 1).world, iteration, iteration + 1);
      if plan.repro.Some? {
        var s := SendGroup(script, group.world, plan.repro.value.postMortem, 0, true);
        SendGroupTrace(script, group.world, plan.repro.value.postMortem, 0, true);
        SameStoresKeepHistory(group.world, s.world, iteration);
        KeepsThen(w, group.world, s.world, iteration, iteration);
        RunKeepsHistory(plan, script, s.world, iteration + 1);
        KeepsThen(w, s.world, RunFrom(plan, script, s.world, iteration + 1).world, iteration, iteration + 1);
      }
    }
  }
}
