/** The schedule without recursion: which command stands where, with which collect flag. */
module ScheduleForm {
  import opened Bytes
  import opened Model
  import opened Schedule
  import ScheduleTheorems

  lemma FlattenFirst<T>(pieces: seq<seq<T>>)
    requires pieces != []
    ensures Flatten(pieces) == pieces[0] + Flatten(pieces[1..])
  {
    FlattenAppend([pieces[0]], pieces[1..]);
    FlattenOne(pieces[0]);
    assert [pieces[0]] + pieces[1..] == pieces;
  }

  lemma {:induction false} RequestAt(commands: seq<CommandSpec>, i: nat, collect: bool, k: nat)
    requires i <= k < |commands|
    ensures |Requests(commands, i, collect)| == |commands| - i
    ensures Requests(commands, i, collect)[k - i] == Request(commands[k], collect)
    decreases k - i
  {
    RequestsCount(commands, i, collect);
    if i < k { RequestAt(commands, i + 1, collect, k); }
  }

  lemma {:induction false} RequestsCount(commands: seq<CommandSpec>, i: nat, collect: bool)
    requires i <= |commands|
    ensures |Requests(commands, i, collect)| == |commands| - i
    decreases |commands| - i
  {
    if i < |commands| { RequestsCount(commands, i + 1, collect); }
  }

  /** A group is all its commands in order, each with the same collect flag. */
  lemma RequestsForm(commands: seq<CommandSpec>, collect: bool)
    ensures |Requests(commands, 0, collect)| == |commands|
    ensures forall k :: 0 <= k < |commands| ==> Requests(commands, 0, collect)[k] == Request(commands[k], collect)
  {
    RequestsCount(commands, 0, collect);
    hide Requests;
    forall k | 0 <= k < |commands| ensures Requests(commands, 0, collect)[k] == Request(commands[k], collect) {
      RequestAt(commands, 0, collect, k);
    }
  }

  /** The fired tests ask for their commands one after the other, in the order in which they fired. */
  lemma {:induction false} FiredForm(plan: Plan, cmd: Text, fired: seq<int>, groups: seq<seq<Request>>)
    requires |groups| == |fired|
    requires forall k :: 0 <= k < |fired| ==>
               Key(cmd, fired[k]) in plan.tests
               && groups[k] == Requests(plan.tests[Key(cmd, fired[k])].ifTriggered, 0, false)
    ensures FiredPart(plan, cmd, fired) == Flatten(groups)
    decreases |fired|
  {
    if fired != [] {
      FlattenFirst(groups);
      FiredForm(plan, cmd, fired[1..], groups[1..]);
    }
  }

  /** The main group is its commands in order, each followed by what its tests ask for. The result of
      a command is collected when the file has a repro section, a collect section that processes
      results, or the command itself asks for it. */
  lemma {:induction false} MainForm(plan: Plan, j: nat, record: Record, parts: seq<seq<Request>>)
    requires j + |record| <= |plan.main| && |parts| == |record|
    requires forall k :: 0 <= k < |record| ==>
               var spec := plan.main[j + k].spec;
               var collect := plan.repro.Some? || (plan.collect.Some? && plan.collect.value.processResult) || spec.processResult;
               parts[k] == [Request(spec, collect)] + FiredPart(plan, spec.cmd, record[k])
    ensures MainPart(plan, j, record) == Flatten(parts)
    decreases |record|
  {
    if record != [] {
      FlattenFirst(parts);
      forall k | 0 <= k < |record| - 1
        ensures var spec := plan.main[j + 1 + k].spec;
                parts[1..][k] == [Request(spec, Collects(plan) || spec.processResult)]
                                 + FiredPart(plan, spec.cmd, record[1..][k])
      {
        assert parts[1..][k] == parts[k + 1] && record[1..][k] == record[k + 1];
      }
      hide FiredPart;
      MainForm(plan, j + 1, record[1..], parts[1..]);
    }
  }

  /** A run is its iterations in order, each followed by the post-mortem group, collected, when a test
      fired in it. */
  lemma {:induction false} RunForm(plan: Plan, records: seq<Record>, parts: seq<seq<Request>>)
    requires |parts| == |records|
    requires forall n :: 0 <= n < |records| ==>
               |records[n]| <= |plan.main|
               && parts[n] == MainPart(plan, 0, records[n])
                              + if plan.repro.Some? && exists j :: 0 <= j < |records[n]| && records[n][j] != []
                                then Requests(plan.repro.value.postMortem, 0, true) else []
    ensures RunPart(plan, records) == Flatten(parts)
    decreases |records|
  {
    hide MainPart, Requests;
    if records != [] {
      FlattenFirst(parts);
      assert IterationPart(plan, records[0]) == parts[0];
      hide IterationPart;
      forall n | 0 <= n < |records| - 1 ensures records[1..][n] == records[n + 1] && parts[1..][n] == parts[n + 1] {}
      RunForm(plan, records[1..], parts[1..]);
    }
  }

  /** A run that no fault ends sends its iterations in order, each followed by the post-mortem group
      when a test fired in it. */
  lemma WholeRunSends(plan: Plan, script: Script, w: World, parts: seq<seq<Request>>)
    requires RunFrom(plan, script, w, 0).fault.None?
    requires var records := RunFrom(plan, script, w, 0).records;
             |parts| == |records|
             && forall n :: 0 <= n < |records| ==>
                  |records[n]| <= |plan.main|
                  && parts[n] == MainPart(plan, 0, records[n])
                                 + if plan.repro.Some? && exists j :: 0 <= j < |records[n]| && records[n][j] != []
                                   then Requests(plan.repro.value.postMortem, 0, true) else []
    ensures RunFrom(plan, script, w, 0).world.sent == w.sent + Flatten(parts)
  {
    hide RunFrom, MainPart, Requests, ScheduleTheorems.OnSchedule;
    ScheduleTheorems.RunFollowsSchedule(plan, script, w);
    var legal :| ScheduleTheorems.OnSchedule(plan, 0, w.sent, RunFrom(plan, script, w, 0), legal);
    ScheduleTheorems.SentAll(plan, w.sent, RunFrom(plan, script, w, 0), legal);
    RunForm(plan, legal, parts);
  }
}
