/** The value history of one test over a whole run, and what comparing with the previous
    iteration therefore means. */
module ValueHistory {
  import opened Bytes
  import opened FieldParser
  import opened Verdict

  // ----- the order of the fields does not matter within one iteration

  function WithFields(cx: Context, fields: seq<Field>): (r: Context)
  {
    cx.(spec := cx.spec.(fields := fields))
  }

  lemma SameMembers(a: seq<Field>, b: seq<Field>)
    requires multiset(a) == multiset(b)
    ensures forall f :: f in a <==> f in b
    ensures |a| == |b|
  {
    assert |a| == |multiset(a)| && |b| == |multiset(b)|;
    assert forall f :: f in a <==> f in multiset(a);
    assert forall f :: f in b <==> f in multiset(b);
  }

  lemma AllByMember(cx: Context, text: Text, at: int)
    ensures RowTally(cx, text, at, |cx.spec.fields|).Counted? <==> forall f :: f in cx.spec.fields ==> Cell(cx, text, at, f).Ok?
  {
    RowTallyMeaning(cx, text, at, |cx.spec.fields|);
  }

  lemma PassesOfPermutedFields(cx: Context, px: Context, text: Text, at: int)
    requires px == WithFields(cx, px.spec.fields) && multiset(px.spec.fields) == multiset(cx.spec.fields)
    ensures OccurrencePasses(px, text, at) <==> OccurrencePasses(cx, text, at)
    ensures RowTally(px, text, at, |px.spec.fields|).Counted? <==> RowTally(cx, text, at, |cx.spec.fields|).Counted?
  {
    SameMembers(px.spec.fields, cx.spec.fields);
    AllByMember(px, text, at);
    AllByMember(cx, text, at);
    assert forall f :: Cell(px, text, at, f) == Cell(cx, text, at, f);
  }

  lemma FieldsOutcomeOfPermutedFields(cx: Context, px: Context, text: Text, matches: seq<int>)
    requires px == WithFields(cx, px.spec.fields) && multiset(px.spec.fields) == multiset(cx.spec.fields)
    requires 0 <= cx.spec.occurrence <= |matches|
    ensures var o, p := FieldsOutcome(cx, text, matches), FieldsOutcome(px, text, matches);
            o == p || (o.Failed? && p.Failed?)
  {
    var lo, hi := First(cx.spec), Beyond(cx.spec, |matches|);
    forall at
      ensures OccurrencePasses(px, text, at) <==> OccurrencePasses(cx, text, at)
      ensures RowTally(px, text, at, |px.spec.fields|).Counted? <==> RowTally(cx, text, at, |cx.spec.fields|).Counted?
    {
      PassesOfPermutedFields(cx, px, text, at);
    }
    assert FieldsFire(px, text, matches) <==> FieldsFire(cx, text, matches);
    WindowTallyMeaning(px, text, matches, lo, hi);
    WindowTallyMeaning(cx, text, matches, lo, hi);
  }

  lemma OutcomeOfPermutedFields(cx: Context, fields: seq<Field>, text: Text)
    requires multiset(fields) == multiset(cx.spec.fields)
    ensures var o, p := ResultOutcome(cx, text), ResultOutcome(WithFields(cx, fields), text);
            o == p || (o.Failed? && p.Failed?)
  {
    var px := WithFields(cx, fields);
    var matches := Matches(cx, text);
    assert Matches(px, text) == matches;
    assert fields == [] <==> cx.spec.fields == [] by { SameMembers(fields, cx.spec.fields); }
    if 0 <= cx.spec.occurrence <= |matches| {
      FieldsOutcomeOfPermutedFields(cx, px, text, matches);
    }
  }

  /** Permuting the fields of a test keeps its verdict, although each check overwrites the store
      the next one reads. Only which error is met first may change. */
  lemma {:induction false} VerdictOfPermutedFields(cx: Context, fields: seq<Field>, results: seq<CmdResult>)
    requires multiset(fields) == multiset(cx.spec.fields)
    ensures var v, w := TestVerdict(cx, results), TestVerdict(WithFields(cx, fields), results);
            v == w || (v.Err? && w.Err?)
    decreases |results|
  {
    if |results| > 0 {
      OutcomeOfPermutedFields(cx, fields, results[0].result);
      VerdictOfPermutedFields(cx, fields, results[1..]);
    }
  }

  // ----- one entry per iteration

  /** The store after running the test once per iteration on the given results, from empty. */
  ghost function History(lib: Lib, spec: TestSpec, run: seq<seq<CmdResult>>): (store: Store)
    ensures forall i :: i in store ==> 0 <= i < |run| && |store[i].fields| == 1
  {
    if |run| == 0 then map[]
    else
      var last := |run| - 1;
      var before := History(lib, spec, run[..last]);
      StoreAfter(ContextAt(lib, spec, last, before), before, run[last])
  }

  /** One more iteration. */
  lemma HistoryNext(lib: Lib, spec: TestSpec, run: seq<seq<CmdResult>>, results: seq<CmdResult>)
    ensures var before := History(lib, spec, run);
            History(lib, spec, run + [results]) == StoreAfter(ContextAt(lib, spec, |run|, before), before, results)
  {
    assert (run + [results])[..|run|] == run;
  }

  /** Later iterations never alter the entries of earlier ones. */
  lemma {:induction false} HistoryKeepsEntries(lib: Lib, spec: TestSpec, run: seq<seq<CmdResult>>, n: nat, i: int)
    requires i < n <= |run|
    ensures At(History(lib, spec, run), i) == At(History(lib, spec, run[..n]), i)
    decreases |run|
  {
    if n < |run| {
      HistoryKeepsEntries(lib, spec, run[..|run| - 1], n, i);
      assert run[..|run| - 1][..n] == run[..n];
    } else {
      assert run[..n] == run;
    }
  }

  /** The last occurrence a test examines. */
  function LastExamined(spec: TestSpec, matches: seq<int>): (at: int)
    requires ReachesFields(spec, matches)
  {
    if spec.occurrence == 0 then matches[|matches| - 1] else matches[spec.occurrence - 1]
  }

  function OkValue<T, E>(r: Result<T, E>): (o: Option<T>)
  {
    match r case Ok(v) => Some(v) case Err(_) => None
  }

  /** Occurrence k, counted from 0, is one that the test examines. */
  predicate Examined(spec: TestSpec, matches: seq<int>, k: int)
  {
    ReachesFields(spec, matches) && First(spec) <= k < Beyond(spec, |matches|)
  }

  /** What field `fieldNumber` reads at occurrence k; None when that is not examined or not there. */
  function Read(cx: Context, k: int, fieldNumber: int, text: Text): (r: Option<Text>)
  {
    var matches := Matches(cx, text);
    if Examined(cx.spec, matches, k)
    then OkValue(GetValue(cx.lib, text, matches[k], fieldNumber, cx.spec.separator))
    else None
  }

  /** What it reads at the last occurrence examined; None when the result never gets as far as its
      fields. */
  function Sample(cx: Context, fieldNumber: int, text: Text): (r: Option<Text>)
  {
    Read(cx, Beyond(cx.spec, |Matches(cx, text)|) - 1, fieldNumber, text)
  }

  function LastField(spec: TestSpec): (f: Field)
    requires spec.fields != []
  {
    spec.fields[|spec.fields| - 1]
  }

  function Entry(fieldNumber: int, sample: Option<Text>): (r: Values)
    ensures Lookup(r, fieldNumber) == sample
    ensures forall n :: n != fieldNumber ==> Lookup(r, n) == None
  {
    if sample.None? then Values(map[]) else One(fieldNumber, sample.value)
  }

  lemma RowWriteIsLast(cx: Context, text: Text, at: int)
    requires cx.spec.fields != [] && RowTally(cx, text, at, |cx.spec.fields|).Counted?
    ensures Extract(cx, text, at, LastField(cx.spec)).Ok?
    ensures RowWrite(cx, text, at, |cx.spec.fields|)
            == Some(One(LastField(cx.spec).fieldNumber, Extract(cx, text, at, LastField(cx.spec)).value))
  {
    assert Cell(cx, text, at, LastField(cx.spec)).Ok?;
  }

  /** Only the last field of the last occurrence survives an error-free iteration. */
  lemma WriteIsLastField(cx: Context, text: Text)
    requires cx.spec.fields != [] && !ResultOutcome(cx, text).Failed?
    ensures var sample := Sample(cx, LastField(cx.spec).fieldNumber, text);
            ResultWrite(cx, text) == if sample.None? then None else Some(Entry(LastField(cx.spec).fieldNumber, sample))
  {
    hide GetValue, Matches, RowTally, FieldsFire;
    var matches := Matches(cx, text);
    if ReachesFields(cx.spec, matches) {
      var at := LastExamined(cx.spec, matches);
      assert at == matches[Beyond(cx.spec, |matches|) - 1];
      assert FieldsOutcome(cx, text, matches) == ResultOutcome(cx, text);
      RowWriteIsLast(cx, text, at);
    }
  }

  /** A run in which every iteration yields one result and no iteration fails. */
  ghost predicate CleanRun(lib: Lib, spec: TestSpec, run: seq<seq<CmdResult>>)
  {
    spec.fields != []
    && forall i :: 0 <= i < |run| ==> |run[i]| == 1 && !ResultOutcome(RunContext(lib, spec, run, i), run[i][0].result).Failed?
  }

  /** The context iteration i of a run works in. */
  ghost function RunContext(lib: Lib, spec: TestSpec, run: seq<seq<CmdResult>>, i: nat): (cx: Context)
    requires i < |run|
  {
    ContextAt(lib, spec, i, History(lib, spec, run[..i]))
  }

  /** What field `n` reads in iteration i, by itself. */
  ghost function SampleAt(lib: Lib, spec: TestSpec, run: seq<seq<CmdResult>>, i: nat, n: int): (r: Option<Text>)
    requires i < |run| && |run[i]| == 1
  {
    Sample(RunContext(lib, spec, run, i), n, run[i][0].result)
  }

  lemma StoreAfterOne(cx: Context, store: Store, r: CmdResult)
    ensures StoreAfter(cx, store, [r]) == Written(store, cx.iteration, ResultWrite(cx, r.result))
  {
    assert [r][1..] == [];
  }

  /** The whole history of a clean run: iteration i holds what the last field read in iteration i. */
  lemma HistoryOfCleanRun(lib: Lib, spec: TestSpec, run: seq<seq<CmdResult>>, i: nat)
    requires CleanRun(lib, spec, run) && i < |run|
    ensures At(History(lib, spec, run), i)
            == Entry(LastField(spec).fieldNumber, SampleAt(lib, spec, run, i, LastField(spec).fieldNumber))
  {
    HistoryKeepsEntries(lib, spec, run, i + 1, i);
    var upTo := run[..i + 1];
    var before := History(lib, spec, run[..i]);
    assert upTo[..i] == run[..i] && upTo[i] == run[i];
    var cx := RunContext(lib, spec, run, i);
    assert run[i] == [run[i][0]];
    StoreAfterOne(cx, before, run[i][0]);
    WriteIsLastField(cx, run[i][0].result);
    assert i !in before;
  }

  /** What field `n` reads at occurrence k in iteration i, by itself. */
  ghost function ReadAt(lib: Lib, spec: TestSpec, run: seq<seq<CmdResult>>, i: nat, k: int, n: int): (r: Option<Text>)
    requires i < |run| && |run[i]| == 1
  {
    Read(RunContext(lib, spec, run, i), k, n, run[i][0].result)
  }

  lemma ContextOfPrefix(lib: Lib, spec: TestSpec, run: seq<seq<CmdResult>>, i: nat, j: nat)
    requires j < i <= |run|
    ensures RunContext(lib, spec, run[..i], j) == RunContext(lib, spec, run, j)
  {
    assert run[..i][..j] == run[..j];
  }

  lemma SpecOfContext(lib: Lib, spec: TestSpec, run: seq<seq<CmdResult>>, i: nat)
    requires i < |run|
    ensures RunContext(lib, spec, run, i).spec == spec
  {
  }

  lemma CleanPrefix(lib: Lib, spec: TestSpec, run: seq<seq<CmdResult>>, i: nat)
    requires i <= |run| && CleanRun(lib, spec, run)
    ensures CleanRun(lib, spec, run[..i])
  {
    hide RunContext, ResultOutcome;
    forall j | 0 <= j < i ensures RunContext(lib, spec, run[..i], j) == RunContext(lib, spec, run, j) {
      ContextOfPrefix(lib, spec, run, i, j);
    }
  }

  /** The previous entry that iteration i > 0 sees when the iterations before it were clean. */
  lemma PreviousOfCleanRun(lib: Lib, spec: TestSpec, run: seq<seq<CmdResult>>, i: nat)
    requires 0 < i < |run| && CleanRun(lib, spec, run[..i])
    ensures |run[i - 1]| == 1
    ensures RunContext(lib, spec, run, i).previous
            == Entry(LastField(spec).fieldNumber, SampleAt(lib, spec, run, i - 1, LastField(spec).fieldNumber))
  {
    hide ResultOutcome, StoreAfter, History, Sample;
    var before := run[..i];
    assert before[i - 1] == run[i - 1];
    ContextOfPrefix(lib, spec, run, i, i - 1);
    HistoryOfCleanRun(lib, spec, before, i - 1);
    assert RunContext(lib, spec, run, i).previous == At(History(lib, spec, before), i - 1);
  }

  // ----- comparing with the previous iteration

  /** The iterations before i were clean, and iteration i has one result. */
  ghost predicate CleanBefore(lib: Lib, spec: TestSpec, run: seq<seq<CmdResult>>, i: nat)
  {
    i < |run| && |run[i]| == 1 && CleanRun(lib, spec, run[..i]) && (i > 0 ==> |run[i - 1]| == 1)
  }

  /** The check of field f at occurrence k fires in iteration i. */
  ghost predicate PairFires(lib: Lib, spec: TestSpec, run: seq<seq<CmdResult>>, i: nat, k: int, f: Field)
    requires i < |run| && |run[i]| == 1
  {
    var cx := RunContext(lib, spec, run, i);
    var text := run[i][0].result;
    Examined(spec, Matches(cx, text), k) && Cell(cx, text, Matches(cx, text)[k], f) == Ok(true)
  }

  /** What a "compare with previous" check is for: the field reads a value that it did not read at
      the same occurrence one iteration earlier; no value counts as a different one. */
  ghost predicate ChangedAt(lib: Lib, spec: TestSpec, run: seq<seq<CmdResult>>, i: nat, k: int, n: int)
    requires 0 < i < |run| && |run[i]| == 1 && |run[i - 1]| == 1
  {
    ReadAt(lib, spec, run, i, k, n) != ReadAt(lib, spec, run, i - 1, k, n)
  }

  /** Every compare_with_previous_neq check that reads a value, at whatever occurrence: it fires
      unless the previous iteration's last field, at its last occurrence, has the same number and
      read the same value. */
  lemma PairFiresExactly(lib: Lib, spec: TestSpec, run: seq<seq<CmdResult>>, i: nat, k: int, f: Field)
    requires CleanBefore(lib, spec, run, i) && i > 0 && f.operation == ComparePreviousNeq
    requires ReadAt(lib, spec, run, i, k, f.fieldNumber).Some?
    ensures PairFires(lib, spec, run, i, k, f)
            <==> f.fieldNumber != LastField(spec).fieldNumber
                 || ReadAt(lib, spec, run, i, k, f.fieldNumber) != SampleAt(lib, spec, run, i - 1, f.fieldNumber)
  {
    PreviousOfCleanRun(lib, spec, run, i);
    var cx := RunContext(lib, spec, run, i);
    var text := run[i][0].result;
    hide RunContext;
    NeqCell(cx, text, Matches(cx, text)[k], f);
  }

  lemma NeqCell(cx: Context, text: Text, at: int, f: Field)
    requires f.operation == ComparePreviousNeq
    ensures Cell(cx, text, at, f).Ok? <==> Extract(cx, text, at, f).Ok?
    ensures Cell(cx, text, at, f) == Ok(true)
            <==> cx.iteration > 0 && Extract(cx, text, at, f).Ok?
                 && Lookup(cx.previous, f.fieldNumber) != OkValue(Extract(cx, text, at, f))
  {
  }

  /** Such a check is right, firing exactly on a change at its own occurrence, if and only if: for
      the last field's number, the last occurrence of the previous iteration read this value exactly
      when the same occurrence did; for any other number, the value did change. */
  lemma ComparePreviousNeqExact(lib: Lib, spec: TestSpec, run: seq<seq<CmdResult>>, i: nat, k: int, f: Field)
    requires CleanBefore(lib, spec, run, i) && i > 0 && f.operation == ComparePreviousNeq
    requires ReadAt(lib, spec, run, i, k, f.fieldNumber).Some?
    ensures var value := ReadAt(lib, spec, run, i, k, f.fieldNumber);
            var same := ReadAt(lib, spec, run, i - 1, k, f.fieldNumber);
            (PairFires(lib, spec, run, i, k, f) <==> ChangedAt(lib, spec, run, i, k, f.fieldNumber))
            <==> if f.fieldNumber == LastField(spec).fieldNumber
                 then SampleAt(lib, spec, run, i - 1, f.fieldNumber) == value <==> same == value
                 else same != value
  {
    PairFiresExactly(lib, spec, run, i, k, f);
  }

  lemma EqCell(cx: Context, text: Text, at: int, f: Field)
    requires f.operation == ComparePreviousEq
    ensures Cell(cx, text, at, f) == Ok(true)
            <==> cx.iteration > 0 && Extract(cx, text, at, f).Ok?
                 && Lookup(cx.previous, f.fieldNumber) == OkValue(Extract(cx, text, at, f))
  {
  }

  /** Every compare_with_previous_eq check that reads a value fires exactly when the previous
      iteration's last field, at its last occurrence, has the same number and read the same value. */
  lemma EqPairFiresExactly(lib: Lib, spec: TestSpec, run: seq<seq<CmdResult>>, i: nat, k: int, f: Field)
    requires CleanBefore(lib, spec, run, i) && i > 0 && f.operation == ComparePreviousEq
    requires ReadAt(lib, spec, run, i, k, f.fieldNumber).Some?
    ensures PairFires(lib, spec, run, i, k, f)
            <==> f.fieldNumber == LastField(spec).fieldNumber
                 && ReadAt(lib, spec, run, i, k, f.fieldNumber) == SampleAt(lib, spec, run, i - 1, f.fieldNumber)
  {
    PreviousOfCleanRun(lib, spec, run, i);
    var cx := RunContext(lib, spec, run, i);
    var text := run[i][0].result;
    hide RunContext;
    EqCell(cx, text, Matches(cx, text)[k], f);
  }

  /** It is right, firing exactly when nothing changed at its own occurrence, under the condition of
      ComparePreviousNeqExact. */
  lemma ComparePreviousEqExact(lib: Lib, spec: TestSpec, run: seq<seq<CmdResult>>, i: nat, k: int, f: Field)
    requires CleanBefore(lib, spec, run, i) && i > 0 && f.operation == ComparePreviousEq
    requires ReadAt(lib, spec, run, i, k, f.fieldNumber).Some?
    ensures var value := ReadAt(lib, spec, run, i, k, f.fieldNumber);
            var same := ReadAt(lib, spec, run, i - 1, k, f.fieldNumber);
            (PairFires(lib, spec, run, i, k, f) <==> !ChangedAt(lib, spec, run, i, k, f.fieldNumber))
            <==> if f.fieldNumber == LastField(spec).fieldNumber
                 then SampleAt(lib, spec, run, i - 1, f.fieldNumber) == value <==> same == value
                 else same != value
  {
    EqPairFiresExactly(lib, spec, run, i, k, f);
  }

  lemma FixedSample(cx: Context, n: int, text: Text)
    requires cx.spec.occurrence > 0
    ensures Sample(cx, n, text) == Read(cx, cx.spec.occurrence - 1, n, text)
    ensures forall k :: Read(cx, k, n, text).Some? ==> k == cx.spec.occurrence - 1
  {
    hide GetValue, Matches;
  }

  /** With a fixed occurrence there is no other one to confuse it with: a check of the last field's
      number is right. */
  lemma FixedOccurrenceAgrees(lib: Lib, spec: TestSpec, run: seq<seq<CmdResult>>, i: nat, k: int, f: Field)
    requires CleanBefore(lib, spec, run, i) && i > 0 && f.operation == ComparePreviousNeq
    requires ReadAt(lib, spec, run, i, k, f.fieldNumber).Some?
    requires spec.occurrence > 0 && f.fieldNumber == LastField(spec).fieldNumber
    ensures PairFires(lib, spec, run, i, k, f) <==> ChangedAt(lib, spec, run, i, k, f.fieldNumber)
  {
    hide RunContext, Read, Sample, PairFires, CleanRun, History, Matches;
    PairFiresExactly(lib, spec, run, i, k, f);
    SpecOfContext(lib, spec, run, i);
    SpecOfContext(lib, spec, run, i - 1);
    FixedSample(RunContext(lib, spec, run, i), f.fieldNumber, run[i][0].result);
    FixedSample(RunContext(lib, spec, run, i - 1), f.fieldNumber, run[i - 1][0].result);
  }

  // ----- a test with two fields

  /** The output "a b", of which a test compares both fields with the previous iteration. */
  const TWO_WORDS: Text := [0x61, SPACE, 0x62]
  const WORDS_LIB: Lib := Lib(imap[[0x61] := Regex(imap[TWO_WORDS := [0]])], imap[[SPACE] := {SPACE}])
  const WORDS_TEST: TestSpec :=
    TestSpec(Some([0x61]), 1, None, [Field(0, ComparePreviousNeq, []), Field(1, ComparePreviousNeq, [])], [], false)
  const SAME_TWICE: seq<seq<CmdResult>> := [[CmdResult([], TWO_WORDS)], [CmdResult([], TWO_WORDS)]]

  lemma TwoParts(a: Text, run: Text, b: Text)
    ensures Weave([a, b], [run]) == a + run + b
  {
    assert [a, b][1..] == [b] && [run][1..] == [];
    assert Weave([b], []) == b;
  }

  lemma WordsRead()
    ensures GetValue(WORDS_LIB, TWO_WORDS, 0, 0, []) == Ok([0x61])
    ensures GetValue(WORDS_LIB, TWO_WORDS, 0, 1, []) == Ok([0x62])
  {
    hide Weave, GetValue, Trim, Split;
    var parts, runs := [[0x61 as Byte], [0x62]], [[SPACE]];
    TwoParts([0x61], [SPACE], [0x62]);
    assert TWO_WORDS == TWO_WORDS[0..3] == [0x61] + [SPACE] + [0x62];
    FieldOfJoinedLine(WORDS_LIB, TWO_WORDS, 0, Segment(0, 3), [], {SPACE}, parts, runs, 0);
    FieldOfJoinedLine(WORDS_LIB, TWO_WORDS, 0, Segment(0, 3), [], {SPACE}, parts, runs, 1);
    TrimMeaning([0x61], TRIMMED);
    TrimMeaning([0x62], TRIMMED);
  }

  lemma WordsNeverFail(cx: Context)
    requires cx.lib == WORDS_LIB && cx.spec == WORDS_TEST
    ensures Matches(cx, TWO_WORDS) == [0] && !ResultOutcome(cx, TWO_WORDS).Failed?
  {
    hide GetValue;
    WordsRead();
    RowTallyMeaning(cx, TWO_WORDS, 0, 2);
    WindowTallyMeaning(cx, TWO_WORDS, [0], 0, 1);
  }

  /** The same output twice: the first field did not change, yet its check fires in iteration 1,
      because the entry of iteration 0 holds the second field only. */
  lemma TwoFieldsMisfire()
    ensures CleanBefore(WORDS_LIB, WORDS_TEST, SAME_TWICE, 1)
    ensures !ChangedAt(WORDS_LIB, WORDS_TEST, SAME_TWICE, 1, 0, 0)
    ensures PairFires(WORDS_LIB, WORDS_TEST, SAME_TWICE, 1, 0, WORDS_TEST.fields[0])
  {
    hide GetValue, ResultOutcome, Matches;
    forall i | 0 <= i < 2 { WordsNeverFail(RunContext(WORDS_LIB, WORDS_TEST, SAME_TWICE, i)); }
    assert CleanRun(WORDS_LIB, WORDS_TEST, SAME_TWICE);
    CleanPrefix(WORDS_LIB, WORDS_TEST, SAME_TWICE, 1);
    WordsRead();
    PairFiresExactly(WORDS_LIB, WORDS_TEST, SAME_TWICE, 1, 0, WORDS_TEST.fields[0]);
  }

  // ----- a test with one field

  /** What it reads at occurrence k differs from what the previous iteration read last. */
  ghost predicate DiffersFromLast(lib: Lib, spec: TestSpec, run: seq<seq<CmdResult>>, i: nat, k: int, n: int)
    requires i < |run| && |run[i]| == 1 && (i > 0 ==> |run[i - 1]| == 1)
  {
    i > 0 && ReadAt(lib, spec, run, i, k, n) != SampleAt(lib, spec, run, i - 1, n)
  }

  /** When a test with the one field n, compared with the previous iteration, fires: the number of
      matches is not the expected one, or every occurrence it examines can be read and one of them,
      or in all-results mode every match, differs from what the previous iteration read last. */
  ghost predicate OneFieldFires(lib: Lib, spec: TestSpec, run: seq<seq<CmdResult>>, i: nat, n: int)
    requires i < |run| && |run[i]| == 1 && (i > 0 ==> |run[i - 1]| == 1)
  {
    var matches := Matches(RunContext(lib, spec, run, i), run[i][0].result);
    matches != []
    && (CountDiffers(spec, matches)
        || (ReachesFields(spec, matches)
            && (forall k :: Examined(spec, matches, k) ==> ReadAt(lib, spec, run, i, k, n).Some?)
            && if spec.checkAllResults
               then forall k :: 0 <= k < |matches| ==>
                      Examined(spec, matches, k) && DiffersFromLast(lib, spec, run, i, k, n)
               else exists k :: Examined(spec, matches, k) && DiffersFromLast(lib, spec, run, i, k, n)))
  }

  lemma PassesOfOneField(cx: Context, text: Text, at: int, f: Field)
    requires cx.spec.fields == [f]
    ensures OccurrencePasses(cx, text, at) <==> Cell(cx, text, at, f) == Ok(true)
    ensures RowTally(cx, text, at, 1).Counted? <==> Cell(cx, text, at, f).Ok?
  {
    assert f in [f];
    assert forall g :: g in [f] ==> g == f;
    RowTallyMeaning(cx, text, at, 1);
  }

  /** The declarative verdict of one result for a test with one field. */
  lemma OneFieldOutcome(cx: Context, text: Text, f: Field)
    requires cx.spec.fields == [f]
    ensures var matches := Matches(cx, text);
            ResultOutcome(cx, text) == Decided(true)
            <==> matches != []
                 && (CountDiffers(cx.spec, matches)
                     || (ReachesFields(cx.spec, matches)
                         && (forall k :: Examined(cx.spec, matches, k) ==> Cell(cx, text, matches[k], f).Ok?)
                         && if cx.spec.checkAllResults
                            then forall k :: 0 <= k < |matches| ==>
                                   Examined(cx.spec, matches, k) && Cell(cx, text, matches[k], f) == Ok(true)
                            else exists k :: Examined(cx.spec, matches, k) && Cell(cx, text, matches[k], f) == Ok(true)))
  {
    var matches := Matches(cx, text);
    if ReachesFields(cx.spec, matches) {
      OneFieldWindow(cx, text, matches, f);
      assert FieldsOutcome(cx, text, matches) == ResultOutcome(cx, text);
    }
  }

  lemma OneFieldWindow(cx: Context, text: Text, matches: seq<int>, f: Field)
    requires cx.spec.fields == [f] && ReachesFields(cx.spec, matches)
    ensures FieldsOutcome(cx, text, matches) == Decided(true)
            <==> (forall k :: Examined(cx.spec, matches, k) ==> Cell(cx, text, matches[k], f).Ok?)
                 && if cx.spec.checkAllResults
                    then forall k :: 0 <= k < |matches| ==>
                           Examined(cx.spec, matches, k) && Cell(cx, text, matches[k], f) == Ok(true)
                    else exists k :: Examined(cx.spec, matches, k) && Cell(cx, text, matches[k], f) == Ok(true)
  {
    var lo, hi := First(cx.spec), Beyond(cx.spec, |matches|);
    forall k: int | lo <= k < hi
      ensures OccurrencePasses(cx, text, matches[k]) <==> Cell(cx, text, matches[k], f) == Ok(true)
      ensures RowTally(cx, text, matches[k], 1).Counted? <==> Cell(cx, text, matches[k], f).Ok?
    {
      PassesOfOneField(cx, text, matches[k], f);
    }
    WindowTallyMeaning(cx, text, matches, lo, hi);
    hide Cell, OccurrencePasses, RowTally, WindowTally;
    assert forall k :: Examined(cx.spec, matches, k) <==> lo <= k < hi;
    if cx.spec.checkAllResults && FieldsFire(cx, text, matches) { assert lo == 0 && hi == |matches|; }
    if cx.spec.checkAllResults && forall k :: 0 <= k < |matches| ==> Examined(cx.spec, matches, k) {
      assert Examined(cx.spec, matches, 0) && Examined(cx.spec, matches, |matches| - 1);
    }
  }

  /** A test with one compare_with_previous_neq field, whatever its other settings. */
  lemma OneFieldNeqVerdict(lib: Lib, spec: TestSpec, run: seq<seq<CmdResult>>, i: nat, f: Field)
    requires CleanBefore(lib, spec, run, i) && spec.fields == [f] && f.operation == ComparePreviousNeq
    ensures TestVerdict(RunContext(lib, spec, run, i), run[i]) == Ok(true)
            <==> OneFieldFires(lib, spec, run, i, f.fieldNumber)
  {
    var cx := RunContext(lib, spec, run, i);
    var text := run[i][0].result;
    var matches := Matches(cx, text);
    assert run[i] == [run[i][0]] && run[i][1..] == [];
    OneFieldOutcome(cx, text, f);
    if i > 0 { PreviousOfCleanRun(lib, spec, run, i); }
    hide ResultOutcome, GetValue, Matches, RunContext;
    forall k | Examined(spec, matches, k)
      ensures Cell(cx, text, matches[k], f).Ok? <==> ReadAt(lib, spec, run, i, k, f.fieldNumber).Some?
      ensures Cell(cx, text, matches[k], f) == Ok(true)
              <==> ReadAt(lib, spec, run, i, k, f.fieldNumber).Some? && DiffersFromLast(lib, spec, run, i, k, f.fieldNumber)
    {
      NeqCell(cx, text, matches[k], f);
    }
    hide Cell, ReadAt, DiffersFromLast;
  }

  /** With a fixed occurrence and no expected count: it fires exactly when this iteration reads a
      value there and the previous one read another value or none. */
  lemma FixedOccurrenceVerdict(lib: Lib, spec: TestSpec, run: seq<seq<CmdResult>>, i: nat, n: int)
    requires CleanBefore(lib, spec, run, i)
    requires spec.occurrence > 0 && spec.numberOfOccurrences.None? && !spec.checkAllResults
    ensures OneFieldFires(lib, spec, run, i, n)
            <==> i > 0 && ReadAt(lib, spec, run, i, spec.occurrence - 1, n).Some?
                 && ChangedAt(lib, spec, run, i, spec.occurrence - 1, n)
  {
    hide RunContext, Matches, GetValue, CleanRun, Sample;
    var k := spec.occurrence - 1;
    var cx := RunContext(lib, spec, run, i);
    var matches := Matches(cx, run[i][0].result);
    assert cx.spec == spec by { SpecOfContext(lib, spec, run, i); }
    assert Examined(spec, matches, k) <==> ReachesFields(spec, matches);
    assert forall l :: Examined(spec, matches, l) ==> l == k;
    assert ReadAt(lib, spec, run, i, k, n).Some? ==> Examined(spec, matches, k);
    if i > 0 {
      SpecOfContext(lib, spec, run, i - 1);
      FixedSample(RunContext(lib, spec, run, i - 1), n, run[i - 1][0].result);
    }
  }

  // ----- a test that looks at every match

  /** The output "x", newline, "y", of which a test compares the only field of every match of ".". */
  const TWO_LINES: Text := [0x78, NL, 0x79]
  const LINES_LIB: Lib := Lib(imap[[0x2e] := Regex(imap[TWO_LINES := [0, 2]])], imap[[SPACE] := {SPACE}])
  const LINES_TEST: TestSpec := TestSpec(Some([0x2e]), 0, None, [Field(0, ComparePreviousNeq, [])], [], false)
  const LINES_TWICE: seq<seq<CmdResult>> := [[CmdResult([], TWO_LINES)], [CmdResult([], TWO_LINES)]]

  lemma LinesRead()
    ensures GetValue(LINES_LIB, TWO_LINES, 0, 0, []) == Ok([0x78])
    ensures GetValue(LINES_LIB, TWO_LINES, 2, 0, []) == Ok([0x79])
  {
    assert TWO_LINES[0..1] == [0x78] && TWO_LINES[2..3] == [0x79];
    assert Weave([[0x78]], []) == [0x78] && Weave([[0x79]], []) == [0x79];
    hide Weave, GetValue, Trim;
    FieldOfJoinedLine(LINES_LIB, TWO_LINES, 0, Segment(0, 1), [], {SPACE}, [[0x78]], [], 0);
    FieldOfJoinedLine(LINES_LIB, TWO_LINES, 2, Segment(2, 3), [], {SPACE}, [[0x79]], [], 0);
    TrimMeaning([0x78], TRIMMED);
    TrimMeaning([0x79], TRIMMED);
  }

  lemma LinesNeverFail(cx: Context)
    requires cx.lib == LINES_LIB && cx.spec == LINES_TEST
    ensures Matches(cx, TWO_LINES) == [0, 2] && !ResultOutcome(cx, TWO_LINES).Failed?
  {
    hide GetValue;
    LinesRead();
    RowTallyMeaning(cx, TWO_LINES, 0, 1);
    RowTallyMeaning(cx, TWO_LINES, 2, 1);
    WindowTallyMeaning(cx, TWO_LINES, [0, 2], 0, 2);
  }

  /** The same output twice: nothing changed at either occurrence, yet the test fires in iteration 1,
      because its first occurrence is compared with the last one of iteration 0. */
  lemma TwoOccurrencesMisfire()
    ensures CleanBefore(LINES_LIB, LINES_TEST, LINES_TWICE, 1)
    ensures forall k :: !ChangedAt(LINES_LIB, LINES_TEST, LINES_TWICE, 1, k, 0)
    ensures TestVerdict(RunContext(LINES_LIB, LINES_TEST, LINES_TWICE, 1), LINES_TWICE[1]) == Ok(true)
  {
    hide GetValue, ResultOutcome, Matches, TestVerdict;
    forall i | 0 <= i < 2 { LinesNeverFail(RunContext(LINES_LIB, LINES_TEST, LINES_TWICE, i)); }
    assert CleanRun(LINES_LIB, LINES_TEST, LINES_TWICE);
    CleanPrefix(LINES_LIB, LINES_TEST, LINES_TWICE, 1);
    LinesRead();
    OneFieldNeqVerdict(LINES_LIB, LINES_TEST, LINES_TWICE, 1, LINES_TEST.fields[0]);
    assert Examined(LINES_TEST, [0, 2], 0) && DiffersFromLast(LINES_LIB, LINES_TEST, LINES_TWICE, 1, 0, 0);
  }
}
