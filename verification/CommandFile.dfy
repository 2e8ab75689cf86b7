/** What reading a command file does after decoding: compile the patterns that a run will use, give
    every main command a result object, and index the tests. */
module CommandFile {
  import opened Bytes
  import opened FieldParser
  import opened Model
  import opened Pipeline
  import S = Schedule

  // ----- the index of the tests, as a function of the decoded lists

  /** The first n tests of a group by their id; a later test with the same id replaces an earlier one. */
  function GroupIndex(cmd: Text, source: seq<Test>, n: nat): (r: map<S.Key, Test>)
    requires n <= |source|
  {
    if n == 0 then map[] else GroupIndex(cmd, source, n - 1)[S.Key(cmd, source[n - 1].id) := source[n - 1]]
  }

  function Without(index: map<S.Key, Test>, cmd: Text): (r: map<S.Key, Test>)
  {
    map key | key in index && key.cmd != cmd :: index[key]
  }

  /** The first n groups; a later group for the same command replaces an earlier one entirely. */
  function Index(groups: seq<TestGroup>, n: nat): (r: map<S.Key, Test>)
    requires n <= |groups|
  {
    if n == 0 then map[]
    else Without(Index(groups, n - 1), groups[n - 1].cmd) + GroupIndex(groups[n - 1].cmd, groups[n - 1].source, |groups[n - 1].source|)
  }

  function TestedCommands(groups: seq<TestGroup>, n: nat): (r: set<Text>)
    requires n <= |groups|
  {
    if n == 0 then {} else TestedCommands(groups, n - 1) + {groups[n - 1].cmd}
  }

  /** The commands that have tests are those for which some group, no matter which, was written. */
  lemma {:induction false} TestedExactly(groups: seq<TestGroup>, n: nat, cmd: Text)
    requires n <= |groups|
    ensures cmd in TestedCommands(groups, n) <==> exists g :: 0 <= g < n && groups[g].cmd == cmd
  {
    if n > 0 { TestedExactly(groups, n - 1, cmd); }
  }

  /** Test i of group g is the last of its group with its id, and its group the last for its command. */
  predicate Effective(groups: seq<TestGroup>, n: nat, g: int, i: int)
    requires n <= |groups|
  {
    0 <= g < n && 0 <= i < |groups[g].source|
    && (forall h :: g < h < n ==> groups[h].cmd != groups[g].cmd)
    && (forall k :: i < k < |groups[g].source| ==> groups[g].source[k].id != groups[g].source[i].id)
  }

  lemma {:induction false} GroupIndexLast(cmd: Text, source: seq<Test>, n: nat, i: nat)
    requires i < n <= |source| && forall k :: i < k < n ==> source[k].id != source[i].id
    ensures var key := S.Key(cmd, source[i].id);
            key in GroupIndex(cmd, source, n) && GroupIndex(cmd, source, n)[key] == source[i]
  {
    if i < n - 1 { GroupIndexLast(cmd, source, n - 1, i); }
  }

  lemma {:induction false} GroupIndexOrigin(cmd: Text, source: seq<Test>, n: nat, key: S.Key) returns (i: nat)
    requires n <= |source| && key in GroupIndex(cmd, source, n)
    ensures key.cmd == cmd && i < n && source[i].id == key.id
    ensures forall k :: i < k < n ==> source[k].id != key.id
  {
    if key == S.Key(cmd, source[n - 1].id) {
      i := n - 1;
    } else {
      i := GroupIndexOrigin(cmd, source, n - 1, key);
    }
  }

  lemma {:induction false} GroupIndexCommand(cmd: Text, source: seq<Test>, n: nat, key: S.Key)
    requires n <= |source| && key in GroupIndex(cmd, source, n)
    ensures key.cmd == cmd
  {
    if n > 0 && key != S.Key(cmd, source[n - 1].id) { GroupIndexCommand(cmd, source, n - 1, key); }
  }

  /** Every effective test is found under its command and id... */
  lemma {:induction false} EffectiveIsIndexed(groups: seq<TestGroup>, n: nat, g: nat, i: nat)
    requires n <= |groups| && Effective(groups, n, g, i)
    ensures var key := S.Key(groups[g].cmd, groups[g].source[i].id);
            key in Index(groups, n) && Index(groups, n)[key] == groups[g].source[i]
  {
    var last := groups[n - 1];
    if g == n - 1 {
      GroupIndexLast(last.cmd, last.source, |last.source|, i);
    } else {
      assert last.cmd != groups[g].cmd;
      EffectiveIsIndexed(groups, n - 1, g, i);
      var key := S.Key(groups[g].cmd, groups[g].source[i].id);
      if key in GroupIndex(last.cmd, last.source, |last.source|) {
        GroupIndexCommand(last.cmd, last.source, |last.source|, key);
      }
    }
  }

  /** ...and nothing else is in the index. */
  lemma {:induction false} IndexedIsEffective(groups: seq<TestGroup>, n: nat, key: S.Key) returns (g: nat, i: nat)
    requires n <= |groups| && key in Index(groups, n)
    ensures Effective(groups, n, g, i) && key == S.Key(groups[g].cmd, groups[g].source[i].id)
    ensures Index(groups, n)[key] == groups[g].source[i]
  {
    var last := groups[n - 1];
    if key in GroupIndex(last.cmd, last.source, |last.source|) {
      g := n - 1;
      i := GroupIndexOrigin(last.cmd, last.source, |last.source|, key);
    } else {
      g, i := IndexedIsEffective(groups, n - 1, key);
      assert groups[n - 1].cmd != groups[g].cmd;
      assert Effective(groups, n, g, i);
    }
    EffectiveIsIndexed(groups, n, g, i);
  }

  // ----- what decoding yields

  /** Every list entry is an object of its own. */
  ghost predicate DistinctTests(groups: seq<TestGroup>)
  {
    forall g, i, h, k ::
      0 <= g < |groups| && 0 <= i < |groups[g].source| && 0 <= h < |groups| && 0 <= k < |groups[h].source|
      && groups[g].source[i] == groups[h].source[k]
      ==> g == h && i == k
  }

  ghost function TestSet(c: Commander): (r: set<Test>)
  {
    set g, i | 0 <= g < |c.groups| && 0 <= i < |c.groups[g].source| :: c.groups[g].source[i]
  }

  ghost function PatternSet(c: Commander): (r: set<Pattern>)
  {
    (set j, p | 0 <= j < |c.main| && p in c.main[j].patterns :: p)
    + (set t | t in TestSet(c) && t.pattern != null :: t.pattern)
  }

  ghost predicate Decoded(lib: Lib, c: Commander)
    reads c.main, TestSet(c), PatternSet(c)
  {
    DistinctTests(c.groups)
    && (forall t :: t in TestSet(c) ==> t.Valid(lib))
    && Distinct(c.main)
  }

  ghost predicate GroupCompiles(lib: Lib, group: TestGroup)
  {
    forall t: Test :: t in group.source && t.pattern != null ==> lib.Compile(t.pattern.source).Some?
  }

  /** Every pattern that a run will use compiles. */
  ghost predicate AllCompile(lib: Lib, c: Commander)
  {
    (forall j :: 0 <= j < |c.main| && c.Processed(j) ==> PatternsCompile(lib, c.main[j].patterns))
    && (forall g :: 0 <= g < |c.groups| ==> GroupCompiles(lib, c.groups[g]))
  }

  lemma AllCompileExactly(lib: Lib, c: Commander)
    ensures AllCompile(lib, c)
            <==> (forall j, p :: 0 <= j < |c.main| && p in c.main[j].patterns
                                 && (c.repro.Some? || (c.collect.Some? && c.collect.value.processResult)
                                     || c.main[j].spec.processResult) ==>
                    p.source in lib.patterns)
                 && (forall g, t: Test :: 0 <= g < |c.groups| && t in c.groups[g].source && t.pattern != null ==>
                       t.pattern.source in lib.patterns)
  {
    if AllCompile(lib, c) {
      forall g, t: Test | 0 <= g < |c.groups| && t in c.groups[g].source && t.pattern != null
        ensures t.pattern.source in lib.patterns
      {
        assert GroupCompiles(lib, c.groups[g]);
      }
      forall j, p | 0 <= j < |c.main| && c.Processed(j) && p in c.main[j].patterns ensures p.source in lib.patterns {
        assert PatternsCompile(lib, c.main[j].patterns);
      }
    }
  }

  // ----- the reading

  method CompilePatterns(lib: Lib, patterns: seq<Pattern>) returns (ok: bool)
    modifies patterns
    ensures ok <==> forall p :: p in patterns ==> lib.Compile(p.source).Some?
    ensures ok ==> forall p :: p in patterns ==> p.Compiled(lib)
    ensures forall p: Pattern :: p in patterns ==> p.Compiled(lib) || p.regExp == old(p.regExp)
  {
    for k := 0 to |patterns|
      invariant forall i :: 0 <= i < k ==> patterns[i].Compiled(lib)
      invariant forall p: Pattern :: p in patterns ==> p.Compiled(lib) || p.regExp == old(p.regExp)
    {
      var compiled := lib.Compile(patterns[k].source);
      if compiled.None? {
        return false;
      }
      patterns[k].regExp := compiled;
    }
    return true;
  }

  ghost predicate ResultEmpty(command: Command)
    reads command, command.commandResult
  {
    command.commandResult != null
    && command.commandResult.patternMatch == [] && command.commandResult.triggeredTest == []
  }

  ghost predicate PatternsCompile(lib: Lib, patterns: seq<Pattern>)
  {
    forall p :: p in patterns ==> lib.Compile(p.source).Some?
  }

  lemma ProcessedInSet(c: Commander)
    ensures c.ProcessedPatterns() <= PatternSet(c)
  {
  }

  lemma PatternSetHas(c: Commander, j: nat)
    requires j < |c.main|
    ensures forall p :: p in c.main[j].patterns ==> p in PatternSet(c)
  {
  }

  /** One main command: its patterns, if its output is processed, and a result object of its own. */
  method PrepareCommand(lib: Lib, command: Command, processed: bool) returns (ok: bool)
    modifies command, command.patterns
    ensures ok <==> (processed ==> PatternsCompile(lib, command.patterns))
    ensures ok ==> ResultEmpty(command) && fresh(command.commandResult)
    ensures ok && processed ==> forall p :: p in command.patterns ==> p.Compiled(lib)
    ensures forall p: Pattern :: p in command.patterns ==> p.Compiled(lib) || p.regExp == old(p.regExp)
  {
    if processed {
      var compiled := CompilePatterns(lib, command.patterns);
      if !compiled {
        return false;
      }
    }
    command.commandResult := new CommandResult();
    return true;
  }

  /** The patterns of the first n main commands whose output is processed. */
  ghost function ProcessedUpTo(c: Commander, n: nat): (r: set<Pattern>)
    requires n <= |c.main|
  {
    set j, p | 0 <= j < n && c.Processed(j) && p in c.main[j].patterns :: p
  }

  lemma ProcessedNext(c: Commander, n: nat)
    requires n < |c.main|
    ensures ProcessedUpTo(c, n + 1)
            == ProcessedUpTo(c, n) + if c.Processed(n) then set p | p in c.main[n].patterns else {}
    ensures ProcessedUpTo(c, n) <= PatternSet(c)
  {
  }

  lemma ProcessedEnds(c: Commander)
    ensures ProcessedUpTo(c, 0) == {} && ProcessedUpTo(c, |c.main|) == c.ProcessedPatterns()
  {
  }

  lemma ReadyWith(lib: Lib, c: Commander, made: seq<CommandResult>)
    requires |made| == |c.main| && Distinct(made)
    requires forall j :: 0 <= j < |c.main| ==> c.main[j].commandResult == made[j]
    requires forall p :: p in c.ProcessedPatterns() ==> p.Compiled(lib)
    ensures c.CommandsReady(lib)
  {
  }

  lemma CommandsCompiled(lib: Lib, c: Commander)
    requires forall p :: p in c.ProcessedPatterns() ==> p.Compiled(lib)
    ensures forall j :: 0 <= j < |c.main| && c.Processed(j) ==> PatternsCompile(lib, c.main[j].patterns)
  {
    forall j | 0 <= j < |c.main| && c.Processed(j) ensures PatternsCompile(lib, c.main[j].patterns) {
      forall p | p in c.main[j].patterns ensures lib.Compile(p.source).Some? {
        assert p in c.ProcessedPatterns();
        assert p.Compiled(lib);
      }
    }
  }

  lemma DistinctNone<T>()
    ensures Distinct<T>([])
  {
  }

  /** The loop over the main commands. */
  method PrepareCommands(lib: Lib, c: Commander) returns (ok: bool)
    requires Distinct(c.main)
    modifies c.main, PatternSet(c)
    ensures ok <==> forall j :: 0 <= j < |c.main| && c.Processed(j) ==> PatternsCompile(lib, c.main[j].patterns)
    ensures ok ==> c.CommandsReady(lib)
    ensures ok ==> forall j :: 0 <= j < |c.main| ==> ResultEmpty(c.main[j])
    ensures forall p :: p in PatternSet(c) ==> p.Compiled(lib) || p.regExp == old(p.regExp)
  {
    hide PatternsCompile, Distinct, Commander.CommandsReady, Commander.Processed, Lib.Compile;
    hide ProcessedUpTo, Commander.ProcessedPatterns, Commander.ResultsOwned;
    ghost var made: seq<CommandResult> := [];
    DistinctNone<CommandResult>();
    ProcessedEnds(c);
    for j := 0 to |c.main|
      invariant |made| == j && forall k :: 0 <= k < j ==> c.main[k].commandResult == made[k]
      invariant forall k :: 0 <= k < j ==> fresh(made[k]) && made[k].patternMatch == [] && made[k].triggeredTest == []
      invariant Distinct(made)
      invariant forall p :: p in ProcessedUpTo(c, j) ==> p.Compiled(lib)
      invariant forall p :: p in PatternSet(c) ==> p.Compiled(lib) || p.regExp == old(p.regExp)
    {
      PatternSetHas(c, j);
      DistinctAt(c.main, j);
      ProcessedNext(c, j);
      var prepared := PrepareCommand(lib, c.main[j], c.Processed(j));
      if !prepared {
        return false;
      }
      ghost var result: CommandResult := c.main[j].commandResult;
      DistinctAppend(made, result);
      made := made + [result];
    }
    ReadyWith(lib, c, made);
    CommandsCompiled(lib, c);
    return true;
  }

  /** The loop over the tests of one group. */
  method PrepareTests(lib: Lib, group: TestGroup, ghost patterns: set<Pattern>)
    returns (ok: bool, index: map<S.Key, Test>)
    requires forall t: Test :: t in group.source && t.pattern != null ==> t.pattern in patterns
    modifies group.source, patterns
    ensures ok <==> GroupCompiles(lib, group)
    ensures ok ==> forall t: Test :: t in group.source ==> t.valuesStore == map[]
    ensures ok ==> forall t: Test :: t in group.source && t.pattern != null ==> t.pattern.Compiled(lib)
    ensures ok ==> index == GroupIndex(group.cmd, group.source, |group.source|)
    ensures forall p: Pattern :: p in patterns ==> p.Compiled(lib) || p.regExp == old(p.regExp)
    ensures forall t: Test :: t in group.source ==> t.valuesStore == map[] || t.valuesStore == old(t.valuesStore)
  {
    index := map[];
    for i := 0 to |group.source|
      invariant index == GroupIndex(group.cmd, group.source, i)
      invariant forall k :: 0 <= k < i ==> group.source[k].valuesStore == map[]
      invariant forall k :: 0 <= k < i && group.source[k].pattern != null ==>
                  group.source[k].pattern.Compiled(lib)
      invariant forall p: Pattern :: p in patterns ==> p.Compiled(lib) || p.regExp == old(p.regExp)
      invariant forall t: Test :: t in group.source ==> t.valuesStore == map[] || t.valuesStore == old(t.valuesStore)
    {
      var e := group.source[i];
      if e.pattern != null {
        var compiled := lib.Compile(e.pattern.source);
        if compiled.None? {
          return false, index;
        }
        e.pattern.regExp := compiled;
      }
      e.valuesStore := map[];
      index := index[S.Key(group.cmd, e.id) := e];
    }
    ok := true;
  }

  lemma IndexIsInjective(groups: seq<TestGroup>)
    requires DistinctTests(groups)
    ensures var index := Index(groups, |groups|);
            forall k, l :: k in index && l in index && index[k] == index[l] ==> k == l
  {
    var index := Index(groups, |groups|);
    forall k, l | k in index && l in index && index[k] == index[l]
      ensures k == l
    {
      var g, i := IndexedIsEffective(groups, |groups|, k);
      var h, j := IndexedIsEffective(groups, |groups|, l);
    }
  }

  lemma IndexedIsTest(c: Commander, key: S.Key)
    requires key in Index(c.groups, |c.groups|)
    ensures Index(c.groups, |c.groups|)[key] in TestSet(c)
  {
    var g, i := IndexedIsEffective(c.groups, |c.groups|, key);
  }

  lemma GroupInSets(c: Commander, g: nat)
    requires g < |c.groups|
    ensures forall t: Test :: t in c.groups[g].source ==> t in TestSet(c)
    ensures forall t: Test :: t in c.groups[g].source && t.pattern != null ==> t.pattern in PatternSet(c)
  {
  }

  lemma ReadyAfter(lib: Lib, c: Commander)
    requires DistinctTests(c.groups) && c.index == Index(c.groups, |c.groups|)
    requires forall t: Test :: t in TestSet(c) ==> t.Valid(lib)
    requires c.CommandsReady(lib)
    ensures c.Ready(lib)
  {
    IndexIsInjective(c.groups);
    forall key | key in c.index ensures c.index[key].Valid(lib) { IndexedIsTest(c, key); }
  }

  lemma IndexNext(groups: seq<TestGroup>, n: nat)
    requires n < |groups|
    ensures TestedCommands(groups, n + 1) == TestedCommands(groups, n) + {groups[n].cmd}
    ensures Index(groups, n + 1) == Without(Index(groups, n), groups[n].cmd)
                                    + GroupIndex(groups[n].cmd, groups[n].source, |groups[n].source|)
  {
  }

  lemma IndexNone(groups: seq<TestGroup>)
    ensures Index(groups, 0) == map[] && TestedCommands(groups, 0) == {}
  {
  }

  /** The tests of the first n groups. */
  ghost function TestsUpTo(c: Commander, n: nat): (r: set<Test>)
    requires n <= |c.groups|
  {
    set g, t | 0 <= g < n && t in c.groups[g].source :: t
  }

  lemma TestsNext(c: Commander, n: nat)
    requires n < |c.groups|
    ensures TestsUpTo(c, n + 1) == TestsUpTo(c, n) + set t | t in c.groups[n].source
    ensures TestsUpTo(c, n) <= TestSet(c)
    ensures forall t :: t in TestsUpTo(c, n) && t.pattern != null ==> t.pattern in PatternSet(c)
  {
  }

  lemma TestsEnd(lib: Lib, c: Commander)
    ensures TestsUpTo(c, 0) == {}
    ensures forall g, t: Test :: 0 <= g < |c.groups| && t in c.groups[g].source ==> t in TestsUpTo(c, |c.groups|)
  {
  }

  lemma GroupsCompiled(lib: Lib, c: Commander)
    requires forall t :: t in TestsUpTo(c, |c.groups|) && t.pattern != null ==> t.pattern.Compiled(lib)
    ensures forall g :: 0 <= g < |c.groups| ==> GroupCompiles(lib, c.groups[g])
  {
  }

  /** The loop over the groups of tests. */
  method PrepareGroups(lib: Lib, c: Commander) returns (ok: bool)
    requires c.testedCommands == {} && c.index == map[]
    modifies c, TestSet(c), PatternSet(c)
    ensures ok <==> forall g :: 0 <= g < |c.groups| ==> GroupCompiles(lib, c.groups[g])
    ensures ok ==> c.index == Index(c.groups, |c.groups|) && c.testedCommands == TestedCommands(c.groups, |c.groups|)
    ensures ok ==> forall g, t: Test :: 0 <= g < |c.groups| && t in c.groups[g].source ==> t.valuesStore == map[]
    ensures ok ==> forall g, t: Test :: 0 <= g < |c.groups| && t in c.groups[g].source && t.pattern != null ==>
                     t.pattern.Compiled(lib)
    ensures forall p: Pattern :: p in PatternSet(c) ==> p.Compiled(lib) || p.regExp == old(p.regExp)
  {
    hide GroupCompiles, Index, GroupIndex, Without, TestedCommands;
    hide TestsUpTo;
    IndexNone(c.groups);
    TestsEnd(lib, c);
    for g := 0 to |c.groups|
      invariant c.index == Index(c.groups, g) && c.testedCommands == TestedCommands(c.groups, g)
      invariant forall t :: t in TestsUpTo(c, g) ==> t.valuesStore == map[]
      invariant forall t :: t in TestsUpTo(c, g) && t.pattern != null ==> t.pattern.Compiled(lib)
      invariant forall p: Pattern :: p in PatternSet(c) ==> p.Compiled(lib) || p.regExp == old(p.regExp)
    {
      GroupInSets(c, g);
      IndexNext(c.groups, g);
      TestsNext(c, g);
      var prepared, index := PrepareTests(lib, c.groups[g], PatternSet(c));
      if !prepared {
        return false;
      }
      c.index := Without(c.index, c.groups[g].cmd) + index;
      c.testedCommands := c.testedCommands + {c.groups[g].cmd};
    }
    GroupsCompiled(lib, c);
    return true;
  }

  /** After decoding: it succeeds exactly when every pattern a run will use compiles, and then the
      commander is ready to run, with empty histories and empty results. */
  method Prepare(lib: Lib, c: Commander) returns (ok: bool)
    requires Decoded(lib, c) && c.testedCommands == {} && c.index == map[]
    modifies c, c.main, TestSet(c), PatternSet(c)
    ensures ok <==> AllCompile(lib, c)
    ensures ok ==> c.Ready(lib)
    ensures ok ==> c.index == Index(c.groups, |c.groups|) && c.testedCommands == TestedCommands(c.groups, |c.groups|)
    ensures ok ==> forall g, t: Test :: 0 <= g < |c.groups| && t in c.groups[g].source ==> t.valuesStore == map[]
    ensures ok ==> forall g, t: Test :: 0 <= g < |c.groups| && t in c.groups[g].source && t.pattern != null ==>
                     t.pattern.Compiled(lib)
    ensures ok ==> forall j :: 0 <= j < |c.main| ==> ResultEmpty(c.main[j])
  {
    hide PatternsCompile, GroupCompiles, DistinctTests, Distinct, Commander.Ready, Commander.ResultsOwned,
         Commander.ProcessedPatterns;
    ok := PrepareCommands(lib, c);
    if !ok {
      return;
    }
    ProcessedInSet(c);
    ok := PrepareGroups(lib, c);
    if ok {
      ReadyAfter(lib, c);
    }
  }

  /** What Prepare leaves is a world in which no test has a history yet. */
  lemma PreparedStores(r: Router, c: Commander, key: S.Key)
    requires c.index == Index(c.groups, |c.groups|)
    requires forall g, t: Test :: 0 <= g < |c.groups| && t in c.groups[g].source ==> t.valuesStore == map[]
    ensures S.StoreOf(View(r, c), key) == map[]
  {
    if key in c.index {
      var g, i := IndexedIsEffective(c.groups, |c.groups|, key);
      assert c.index[key] in c.groups[g].source;
    }
  }
}
