/** Concrete inputs on which the code does not do what it is for. */
module Shortfalls {
  import opened Bytes
  import opened FieldParser
  import opened Verdict
  import opened ValueHistory
  import opened Model
  import opened Schedule
  import opened Platform
  import L = Locations

  // ----- all results of one occurrence

  /** A test of the first match only, which must read "x", with check_all_results. */
  const FIRST_OF_ALL: TestSpec := TestSpec(Some([0x2e]), 1, None, [Field(0, CompareValueEq, [0x78])], [], true)

  /** On the output "x", newline, "y" the occurrence asked for passes, and the test does not fire. */
  lemma AllResultsNeverFires()
    ensures var cx := Context(LINES_LIB, FIRST_OF_ALL, 0, Values(map[]));
            OccurrencePasses(cx, TWO_LINES, Matches(cx, TWO_LINES)[0])
            && TestVerdict(cx, [CmdResult([], TWO_LINES)]) == Ok(false)
  {
    hide GetValue;
    var cx := Context(LINES_LIB, FIRST_OF_ALL, 0, Values(map[]));
    var f := FIRST_OF_ALL.fields[0];
    LinesRead();
    assert Matches(cx, TWO_LINES) == [0, 2];
    assert Cell(cx, TWO_LINES, 0, f) == Ok(true);
    hide Cell, Matches;
    PassesOfOneField(cx, TWO_LINES, 0, f);
    WindowTallyMeaning(cx, TWO_LINES, [0, 2], 0, 1);
    AllResultsWithOccurrence(cx, TWO_LINES, [0, 2]);
    hide OccurrencePasses, RowTally, WindowTally, FieldsFire;
    assert ResultOutcome(cx, TWO_LINES) == Continue;
    assert [CmdResult([], TWO_LINES)][1..] == [];
  }

  // ----- a command file without a repro section

  /** The command "a" and its test 1, which any "a" in the output triggers. */
  const A: Text := [0x61]
  const A_LIB: Lib := Lib(imap[A := Regex(imap[A := [0]])], imap[])
  const A_TEST: TestSpec := TestSpec(Some(A), 0, None, [], [], false)

  /** No repro section; the command's results are processed, and it names the tests `ids`. */
  function CollectFile(ids: seq<int>): (plan: Plan)
  {
    Plan(A_LIB, None, None, [MainCommand(CommandSpec(A, 1, 0, [], [], true, ids), [])], {A},
         map[Key(A, 1) := TestEntry(A_TEST, [])])
  }

  /** The router answers the command with "a". */
  const A_ANSWER: seq<CmdResult> := [CmdResult(A, A)]
  const A_ROUTER: Script := imap[0 := A_ANSWER]
  const BEGINNING: World := World([], map[], [])

  lemma AnyTriggers(cx: Context)
    requires cx.lib == A_LIB && cx.spec == A_TEST
    ensures TestVerdict(cx, A_ANSWER) == Ok(true)
  {
    assert Matches(cx, A) == [0];
  }

  /** Naming its test makes the run read the missing repro section. */
  lemma TriggerWithoutRepro()
    ensures RunFrom(CollectFile([1]), A_ROUTER, BEGINNING, 0).fault == Some(NoReproSection)
  {
    var plan := CollectFile([1]);
    var sent := Send(A_ROUTER, BEGINNING, plan.main[0].spec, true);
    assert Answer(A_ROUTER, BEGINNING, true) == A_ANSWER;
    var matched := WithMatches(plan, sent.world, 0, A_ANSWER);
    AnyTriggers(ContextIn(plan, matched, Key(A, 1), 0));
    hide TestVerdict, StoreAfter;
    var tested := RunTests(plan, A_ROUTER, matched, A, [1], 0, A_ANSWER, 0);
    assert RunTests(plan, A_ROUTER, matched, A, [1], 0, A_ANSWER, 0).fired == [1] && tested.fault.None?;
    var step := RunCommand(plan, A_ROUTER, BEGINNING, 0, 0);
    assert step.fired == [1] && step.fault.None?;
    hide RunTests, RunCommand;
    var group := RunMain(plan, A_ROUTER, BEGINNING, 0, 0);
    assert group.record == [[1]] && group.fault.None?;
    assert Triggered(group.record) by { assert group.record[0] != []; }
  }

  // ----- a command without test ids

  /** A command without test ids runs no test, whatever tests it has. */
  lemma NoIdsNoTests(plan: Plan, script: Script, w: World, j: nat, iteration: nat)
    requires j < |plan.main| && plan.main[j].spec.testIDs == []
    ensures var r := RunCommand(plan, script, w, j, iteration);
            r.fired == [] && r.world.stores == w.stores && |r.world.sent| == |w.sent| + 1
  {
  }

  /** The same file without the id: the command's test would trigger on the answer, and nothing
      fires. */
  lemma TestsNotRun()
    ensures forall cx: Context :: cx.lib == A_LIB && cx.spec == A_TEST ==> TestVerdict(cx, A_ANSWER) == Ok(true)
    ensures RunCommand(CollectFile([]), A_ROUTER, BEGINNING, 0, 0).fired == []
  {
    forall cx: Context | cx.lib == A_LIB && cx.spec == A_TEST ensures TestVerdict(cx, A_ANSWER) == Ok(true) {
      AnyTriggers(cx);
    }
    NoIdsNoTests(CollectFile([]), A_ROUTER, BEGINNING, 0, 0);
  }

  // ----- locations

  /** "0/RP0/CPU0" */
  const NODE: Text := [0x30, 0x2f, 0x52, 0x50, 0x30, 0x2f, 0x43, 0x50, 0x55, 0x30]

  /** "IOS XR RUN", newline */
  const RUNNING: Text := [0x49, 0x4f, 0x53, 0x20, 0x58, 0x52, 0x20, 0x52, 0x55, 0x4e, NL]

  /** "A", a space, the running state */
  const CARD: Text := [0x41, SPACE] + RUNNING

  /** "0/RP0/CPU0 A IOS XR RUN": one route processor, no line card. */
  const RP_LINE: Text := NODE + [SPACE] + CARD

  /** The same behind the word "all", which the line pattern does not mind. */
  const ALL_LINE: Text := L.ALL + [SPACE] + RP_LINE

  lemma {:induction false} BreakAtEnd(line: Text)
    requires line != [] && line[|line| - 1] == NL && forall k :: 0 <= k < |line| - 1 ==> line[k] != NL
    ensures LineBreak(line) == |line|
  {
    if |line| > 1 { BreakAtEnd(line[1..]); }
  }

  lemma OneLine(line: Text)
    requires line != [] && line[|line| - 1] == NL && forall k :: 0 <= k < |line| - 1 ==> line[k] != NL
    ensures ReadLines(line) == [line, []]
  {
    BreakAtEnd(line);
    assert line[|line|..] == [] && line[..|line|] == line;
  }

  lemma EmptyNamesNothing()
    ensures [] !in ShowPlatform().rp && [] !in ShowPlatform().lc
  {
    forall p ensures !Matched([], p) {
      assert |p.front + p.node + [SLASH] + p.slot + CPU + p.gap + p.kind + p.gap2 + STATE + p.gap3 + p.back| > 0;
    }
  }

  /** Three columns and more, of which the first is the word before the first space. */
  lemma ColumnsOf(line: Text, first: Text, second: Text, rest: Text)
    requires line == first + [SPACE] + (second + [SPACE] + rest) && rest != [] && rest[0] !in WHITESPACE
    requires first != [] && SeparatorFree(first, WHITESPACE) && second != [] && SeparatorFree(second, WHITESPACE)
    requires Trimmed(first, TRIMMED)
    ensures |Columns(line)| >= 3 && LocationOf(line) == first
  {
    hide Split;
    SplitStep(second, [SPACE], rest, WHITESPACE);
    SplitStep(first, [SPACE], second + [SPACE] + rest, WHITESPACE);
    TrimMeaning(first, TRIMMED);
    hide Trim;
    assert |Split(rest, WHITESPACE)| > 0;
  }

  lemma RpLineMatches(front: Text)
    ensures front + RP_LINE in ShowPlatform().rp
  {
    var p := Parts(front, [0x30], [0x52, 0x50, 0x30], [SPACE], [0x41], [SPACE], [NL], []);
    assert RP_LINE == [0x30] + [SLASH] + [0x52, 0x50, 0x30] + CPU + [SPACE] + [0x41] + [SPACE] + STATE + [NL];
    assert p.slot[|RP|..] == [0x30] && RP <= p.slot;
    assert Matched(front + RP_LINE, p);
  }

  lemma NotLineCard()
    ensures RP_LINE !in ShowPlatform().lc
  {
    assert forall i :: 0 <= i < |RP_LINE| - 1 && RP_LINE[i] == SLASH ==> !IsDigit(RP_LINE[i + 1]);
    forall p ensures !(Matched(RP_LINE, p) && Digits(p.slot)) {
      if Matched(RP_LINE, p) && Digits(p.slot) { SlashBeforeSlot(RP_LINE, p); }
    }
  }

  lemma SlashBeforeSlot(line: Text, p: Parts)
    requires Matched(line, p) && Digits(p.slot)
    ensures var i := |p.front + p.node|; i < |line| - 1 && line[i] == SLASH && IsDigit(line[i + 1])
  {
    var i := |p.front + p.node|;
    var rest := CPU + p.gap + p.kind + p.gap2 + STATE + p.gap3 + p.back;
    assert line == p.front + p.node + [SLASH] + (p.slot + rest);
    assert line[i + 1] == p.slot[0];
  }

  /** What a text of one matching line names. */
  lemma OneLineNames(patterns: LinePatterns, line: Text, first: Text)
    requires ReadLines(line) == [line, []] && [] !in patterns.rp && [] !in patterns.lc
    requires line in patterns.rp && |Columns(line)| >= 3 && LocationOf(line) == first
    ensures WellFormed(patterns, line) && RpLocations(patterns, line) == {first}
    ensures line !in patterns.lc ==> LcLocations(patterns, line) == {}
  {
    hide Columns, LocationOf, ReadLines;
    assert forall l :: l in ReadLines(line) ==> l == line || l == [];
    assert line in ReadLines(line);
  }

  lemma RpLineNames()
    ensures WellFormed(ShowPlatform(), RP_LINE) && RpLocations(ShowPlatform(), RP_LINE) == {NODE}
    ensures LcLocations(ShowPlatform(), RP_LINE) == {}
  {
    hide Columns, LocationOf, ShowPlatform, ReadLines, WellFormed, RpLocations, LcLocations;
    OneLine(RP_LINE);
    EmptyNamesNothing();
    RpLineMatches([]);
    assert [] + RP_LINE == RP_LINE;
    NotLineCard();
    assert RP_LINE == NODE + [SPACE] + ([0x41] + [SPACE] + RUNNING);
    ColumnsOf(RP_LINE, NODE, [0x41], RUNNING);
    OneLineNames(ShowPlatform(), RP_LINE, NODE);
  }

  lemma AllLineNames()
    ensures WellFormed(ShowPlatform(), ALL_LINE) && RpLocations(ShowPlatform(), ALL_LINE) == {L.ALL}
  {
    hide Columns, LocationOf, ShowPlatform, ReadLines, WellFormed, RpLocations, LcLocations;
    OneLine(ALL_LINE);
    EmptyNamesNothing();
    RpLineMatches(L.ALL + [SPACE]);
    assert ALL_LINE == L.ALL + [SPACE] + (NODE + [SPACE] + CARD);
    ColumnsOf(ALL_LINE, L.ALL, NODE, CARD);
    OneLineNames(ShowPlatform(), ALL_LINE, L.ALL);
  }

  /** A platform with one route processor and no line card is accepted, and "all" names its only
      location twice. */
  lemma OneProcessorTwice(platform: Platform)
    requires Describes(platform, ShowPlatform(), RP_LINE)
    ensures WellFormed(ShowPlatform(), RP_LINE) && RpLocations(ShowPlatform(), RP_LINE) == {NODE}
    ensures (multiset(L.RpKeys(Some(platform))) + multiset(L.LcOrRpKeys(Some(platform))))[NODE] == 2
  {
    hide ShowPlatform, RpLocations, LcLocations, WellFormed;
    RpLineNames();
    L.AllOfParsed(platform, ShowPlatform(), RP_LINE);
  }

  /** A text with a location called "all" is accepted, and expanding "all" there never ends. */
  lemma AllIsEndless(platform: Platform)
    requires Describes(platform, ShowPlatform(), ALL_LINE)
    ensures WellFormed(ShowPlatform(), ALL_LINE) && RpLocations(ShowPlatform(), ALL_LINE) == {L.ALL}
    ensures !L.ExpansionEnds(Some(platform), L.ALL)
  {
    hide ShowPlatform, RpLocations, LcLocations, WellFormed;
    AllLineNames();
    forall depth: nat ensures !L.Ends(Some(platform), L.ALL, depth) { L.LoopNeverEnds(Some(platform), depth); }
  }
}
