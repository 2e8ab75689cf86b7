/** What one test decides about the results of one command: the operations on a field, the
    declarative verdict, and the value history a test leaves behind. */
module Verdict {
  import opened Bytes
  import opened FieldParser

  datatype Operation =
    | ComparePreviousNeq
    | ComparePreviousEq
    | CompareValueNeq
    | CompareValueEq
    | ContainSubstring
    | NotContainSubstring
    | Other(name: string)

  datatype Field = Field(fieldNumber: int, operation: Operation, value: Text)

  /** The part of a test that the command file fixes. */
  datatype TestSpec = TestSpec(
    pattern: Option<Text>,
    occurrence: int,
    numberOfOccurrences: Option<int>,
    fields: seq<Field>,
    separator: Text,
    checkAllResults: bool)

  datatype CmdResult = CmdResult(cmd: Text, result: Text)

  /** Values by iteration, then by field number. A missing entry is Go's nil interface. */
  datatype Values = Values(fields: map<int, Text>)
  type Store = map<int, Values>

  function At(store: Store, iteration: int): (r: Values)
  {
    if iteration in store then store[iteration] else Values(map[])
  }

  function Lookup(values: Values, fieldNumber: int): (r: Option<Text>)
  {
    if fieldNumber in values.fields then Some(values.fields[fieldNumber]) else None
  }

  function One(fieldNumber: int, value: Text): (r: Values)
  {
    Values(map[fieldNumber := value])
  }

  /** The `check` function: it reads both entries from the shared store. */
  function Check(iteration: nat, field: Field, store: Store): (r: Result<bool, Error>)
  {
    var current := Lookup(At(store, iteration), field.fieldNumber);
    var previous := Lookup(At(store, iteration - 1), field.fieldNumber);
    match field.operation
    case ComparePreviousNeq => if iteration == 0 then Ok(false) else Ok(current != previous)
    case ComparePreviousEq => if iteration == 0 then Ok(false) else Ok(current == previous)
    case CompareValueNeq => Ok(current != Some(field.value))
    case CompareValueEq => Ok(current == Some(field.value))
    case ContainSubstring => if current.None? then Err(NotAString) else Ok(!Contains(current.value, field.value))
    case NotContainSubstring => if current.None? then Err(NotAString) else Ok(Contains(current.value, field.value))
    case Other(_) => Err(UnknownOperation)
  }

  // ----- the declarative verdict

  /** When a freshly extracted value fires: a function of that value and of the previous
      iteration's entry alone. */
  predicate Fires(iteration: nat, field: Field, value: Text, previous: Values)
  {
    match field.operation
    case ComparePreviousNeq => iteration > 0 && Lookup(previous, field.fieldNumber) != Some(value)
    case ComparePreviousEq => iteration > 0 && Lookup(previous, field.fieldNumber) == Some(value)
    case CompareValueNeq => value != field.value
    case CompareValueEq => value == field.value
    case ContainSubstring => !Contains(value, field.value)
    case NotContainSubstring => Contains(value, field.value)
    case Other(_) => false
  }

  /** Everything a verdict depends on besides the result being looked at. */
  datatype Context = Context(lib: Lib, spec: TestSpec, iteration: nat, previous: Values)

  /** What one iteration of a test works in, given the store that the earlier ones left. */
  function ContextAt(lib: Lib, spec: TestSpec, iteration: nat, store: Store): (cx: Context)
  {
    Context(lib, spec, iteration, At(store, iteration - 1))
  }

  function Extract(cx: Context, text: Text, at: int, field: Field): (r: Result<Text, Error>)
  {
    GetValue(cx.lib, text, at, field.fieldNumber, cx.spec.separator)
  }

  /** The verdict of one field at one occurrence. */
  function Cell(cx: Context, text: Text, at: int, field: Field): (r: Result<bool, Error>)
  {
    match Extract(cx, text, at, field)
    case Err(e) => Err(e)
    case Ok(v) => if field.operation.Other? then Err(UnknownOperation)
                  else Ok(Fires(cx.iteration, field, v, cx.previous))
  }

  /** Checking a field through the store that was just overwritten gives the pure verdict. */
  lemma CheckAfterWrite(iteration: nat, field: Field, store: Store, value: Text)
    ensures Check(iteration, field, store[iteration := One(field.fieldNumber, value)])
            == if field.operation.Other? then Err(UnknownOperation)
               else Ok(Fires(iteration, field, value, At(store, iteration - 1)))
  {
    assert At(store[iteration := One(field.fieldNumber, value)], iteration - 1) == At(store, iteration - 1);
  }

  /** The substring checks of a value just written: contain_substring fires on a value without the
      text, not_contain_substring on one with it. */
  lemma SubstringChecks(iteration: nat, n: int, part: Text, value: Text, store: Store)
    ensures Check(iteration, Field(n, ContainSubstring, part), store[iteration := One(n, value)])
            == Ok(!Contains(value, part))
    ensures Check(iteration, Field(n, NotContainSubstring, part), store[iteration := One(n, value)])
            == Ok(Contains(value, part))
  {
  }

  /** The value checks: compare_with_value_neq fires on every value but the one given,
      compare_with_value_eq on that one only. */
  lemma ValueChecks(iteration: nat, n: int, given: Text, value: Text, store: Store)
    ensures Check(iteration, Field(n, CompareValueNeq, given), store[iteration := One(n, value)]) == Ok(value != given)
    ensures Check(iteration, Field(n, CompareValueEq, given), store[iteration := One(n, value)]) == Ok(value == given)
  {
  }

  /** The checks against the previous iteration never fire in the first one; later they compare with
      what that iteration left under the same field number. An operation with no name known fails. */
  lemma PreviousChecks(iteration: nat, n: int, given: Text, value: Text, before: Text, store: Store, name: string)
    requires iteration > 0 ==> iteration - 1 in store && store[iteration - 1] == One(n, before)
    ensures Check(iteration, Field(n, ComparePreviousNeq, given), store[iteration := One(n, value)])
            == Ok(iteration > 0 && value != before)
    ensures Check(iteration, Field(n, ComparePreviousEq, given), store[iteration := One(n, value)])
            == Ok(iteration > 0 && value == before)
    ensures Check(iteration, Field(n, Other(name), given), store) == Err(UnknownOperation)
  {
    var after := store[iteration := One(n, value)];
    assert iteration > 0 ==> At(after, iteration - 1) == One(n, before);
  }

  /** The occurrences a test looks at are matches[First(spec)..Beyond(spec, |matches|)]. */
  function First(spec: TestSpec): (lo: int)
  {
    if spec.occurrence == 0 then 0 else spec.occurrence - 1
  }

  function Beyond(spec: TestSpec, count: nat): (hi: int)
  {
    if spec.occurrence == 0 then count else spec.occurrence
  }

  ghost predicate OccurrencePasses(cx: Context, text: Text, at: int)
  {
    if cx.spec.checkAllResults
    then forall f :: f in cx.spec.fields ==> Cell(cx, text, at, f) == Ok(true)
    else exists f :: f in cx.spec.fields && Cell(cx, text, at, f) == Ok(true)
  }

  /** All-results mode compares passing occurrences with all matches, so an explicit occurrence
      can only satisfy it when there is exactly one match. */
  ghost predicate FieldsFire(cx: Context, text: Text, matches: seq<int>)
    requires 0 <= cx.spec.occurrence <= |matches|
  {
    var lo, hi := First(cx.spec), Beyond(cx.spec, |matches|);
    if cx.spec.checkAllResults
    then hi - lo == |matches| && forall k :: lo <= k < hi ==> OccurrencePasses(cx, text, matches[k])
    else exists k :: lo <= k < hi && OccurrencePasses(cx, text, matches[k])
  }

  /** A counter, or the error that ended the counting. */
  datatype Tally = Counted(hits: int) | Broken(error: Error)

  /** The first n fields at one occurrence in order: how many fire, or the first error. */
  function RowTally(cx: Context, text: Text, at: int, n: nat): (r: Tally)
    requires n <= |cx.spec.fields|
  {
    if n == 0 then Counted(0)
    else
      var before := RowTally(cx, text, at, n - 1);
      if before.Broken? then before
      else
        match Cell(cx, text, at, cx.spec.fields[n - 1])
        case Err(e) => Broken(e)
        case Ok(fired) => Counted(before.hits + if fired then 1 else 0)
  }

  /** The occurrences matches[lo..hi] in order: how many pass, or the first error. */
  function WindowTally(cx: Context, text: Text, matches: seq<int>, lo: nat, hi: nat): (r: Tally)
    requires lo <= hi <= |matches|
    decreases hi
  {
    if hi == lo then Counted(0)
    else
      var before := WindowTally(cx, text, matches, lo, hi - 1);
      if before.Broken? then before
      else
        match RowTally(cx, text, matches[hi - 1], |cx.spec.fields|)
        case Broken(e) => Broken(e)
        case Counted(hits) => Counted(before.hits + if CountPasses(cx.spec, hits) then 1 else 0)
  }

  /** Whether a number of firing fields lets an occurrence count. */
  predicate CountPasses(spec: TestSpec, hits: int)
  {
    if spec.checkAllResults then hits == |spec.fields| else hits > 0
  }

  datatype Outcome = Continue | Decided(fired: bool) | Failed(error: Error)

  /** Starts of all matches; none when the test has no pattern or it does not compile. */
  function Matches(cx: Context, text: Text): (r: seq<int>)
  {
    var regex := if cx.spec.pattern.None? then None else cx.lib.Compile(cx.spec.pattern.value);
    if regex.None? then [] else FindAll(regex.value, text)
  }

  predicate CountDiffers(spec: TestSpec, matches: seq<int>)
  {
    spec.numberOfOccurrences.Some? && spec.numberOfOccurrences.value != |matches|
  }

  /** The result is decided by its fields, over a window that exists. */
  predicate ReachesFields(spec: TestSpec, matches: seq<int>)
  {
    matches != [] && !CountDiffers(spec, matches) && 0 <= spec.occurrence <= |matches|
  }

  /** What the field checks over the window decide. */
  ghost function FieldsOutcome(cx: Context, text: Text, matches: seq<int>): (r: Outcome)
    requires 0 <= cx.spec.occurrence <= |matches|
  {
    match WindowTally(cx, text, matches, First(cx.spec), Beyond(cx.spec, |matches|))
    case Broken(e) => Failed(e)
    case Counted(_) => if FieldsFire(cx, text, matches) then Decided(true) else Continue
  }

  /** What one result decides. */
  ghost function ResultOutcome(cx: Context, text: Text): (r: Outcome)
  {
    var matches := Matches(cx, text);
    if matches == [] then Continue
    else if CountDiffers(cx.spec, matches) then Decided(true)
    else if |matches| < cx.spec.occurrence then Decided(false)
    else if cx.spec.fields == [] then Decided(true)
    else if cx.spec.occurrence < 0 then Failed(Panic)
    else FieldsOutcome(cx, text, matches)
  }

  /** The first decisive result gives the verdict; with none, nothing triggered. */
  ghost function TestVerdict(cx: Context, results: seq<CmdResult>): (r: Result<bool, Error>)
  {
    if |results| == 0 then Ok(false)
    else
      match ResultOutcome(cx, results[0].result)
      case Continue => TestVerdict(cx, results[1..])
      case Decided(b) => Ok(b)
      case Failed(e) => Err(e)
  }

  /** `k` is the first result that decides; |results| when none does. */
  ghost predicate FirstDecisive(cx: Context, results: seq<CmdResult>, k: int)
  {
    0 <= k <= |results|
    && (forall i :: 0 <= i < k ==> ResultOutcome(cx, results[i].result).Continue?)
    && (k < |results| ==> !ResultOutcome(cx, results[k].result).Continue?)
  }

  function AsResult(o: Outcome): (r: Result<bool, Error>)
  {
    match o
    case Continue => Ok(false)
    case Decided(b) => Ok(b)
    case Failed(e) => Err(e)
  }

  /** The verdict is that of the one first decisive result, and false when there is none. */
  lemma {:induction false} VerdictIsFirstDecisive(cx: Context, results: seq<CmdResult>)
    ensures exists k :: FirstDecisive(cx, results, k)
    ensures forall k :: FirstDecisive(cx, results, k) ==>
      TestVerdict(cx, results) == if k < |results| then AsResult(ResultOutcome(cx, results[k].result)) else Ok(false)
  {
    if |results| == 0 {
      assert FirstDecisive(cx, results, 0);
    } else if !ResultOutcome(cx, results[0].result).Continue? {
      assert FirstDecisive(cx, results, 0);
      assert forall n :: FirstDecisive(cx, results, n) ==> n == 0;
    } else {
      var rest := results[1..];
      VerdictIsFirstDecisive(cx, rest);
      var k :| FirstDecisive(cx, rest, k);
      assert FirstDecisive(cx, results, k + 1) by {
        assert forall i :: 0 < i < |results| ==> results[i] == rest[i - 1];
      }
      forall n | FirstDecisive(cx, results, n) ensures n > 0 && FirstDecisive(cx, rest, n - 1) {
        assert forall i :: 0 <= i < |rest| ==> rest[i] == results[i + 1];
      }
    }
  }

  /** All-results together with an explicit occurrence never fires on its fields when the
      pattern matched more than once. */
  lemma AllResultsWithOccurrence(cx: Context, text: Text, matches: seq<int>)
    requires cx.spec.checkAllResults && 0 < cx.spec.occurrence <= |matches|
    ensures FieldsFire(cx, text, matches) <==> |matches| == 1 && OccurrencePasses(cx, text, matches[0])
  {
  }

  // ----- the counters of the loops decide what the quantifiers say

  lemma {:induction false} RowTallyMeaning(cx: Context, text: Text, at: int, n: nat)
    requires n <= |cx.spec.fields|
    ensures RowTally(cx, text, at, n).Counted? <==> forall k :: 0 <= k < n ==> Cell(cx, text, at, cx.spec.fields[k]).Ok?
    ensures RowTally(cx, text, at, n).Counted? ==>
              var hits := RowTally(cx, text, at, n).hits;
              0 <= hits <= n
              && (hits == n <==> forall k :: 0 <= k < n ==> Cell(cx, text, at, cx.spec.fields[k]) == Ok(true))
              && (hits > 0 <==> exists k :: 0 <= k < n && Cell(cx, text, at, cx.spec.fields[k]) == Ok(true))
  {
    hide Cell;
    if n > 0 { RowTallyMeaning(cx, text, at, n - 1); }
  }

  lemma PassesByCount(cx: Context, text: Text, at: int)
    requires RowTally(cx, text, at, |cx.spec.fields|).Counted?
    ensures OccurrencePasses(cx, text, at) <==> CountPasses(cx.spec, RowTally(cx, text, at, |cx.spec.fields|).hits)
  {
    RowTallyMeaning(cx, text, at, |cx.spec.fields|);
  }

  lemma {:induction false} WindowTallyMeaning(cx: Context, text: Text, matches: seq<int>, lo: nat, hi: nat)
    requires lo <= hi <= |matches|
    ensures WindowTally(cx, text, matches, lo, hi).Counted?
            <==> forall k :: lo <= k < hi ==> RowTally(cx, text, matches[k], |cx.spec.fields|).Counted?
    ensures WindowTally(cx, text, matches, lo, hi).Counted? ==>
              var hits := WindowTally(cx, text, matches, lo, hi).hits;
              0 <= hits <= hi - lo
              && (hits == hi - lo <==> forall k :: lo <= k < hi ==> OccurrencePasses(cx, text, matches[k]))
              && (hits > 0 <==> exists k :: lo <= k < hi && OccurrencePasses(cx, text, matches[k]))
    decreases hi
  {
    hide RowTally, OccurrencePasses;
    if lo < hi {
      WindowTallyMeaning(cx, text, matches, lo, hi - 1);
      if RowTally(cx, text, matches[hi - 1], |cx.spec.fields|).Counted? { PassesByCount(cx, text, matches[hi - 1]); }
    }
  }

  /** Comparing the occurrence counter the way runTest does gives the quantified verdict. */
  lemma CountersDecide(cx: Context, text: Text, matches: seq<int>)
    requires 0 <= cx.spec.occurrence <= |matches|
    requires WindowTally(cx, text, matches, First(cx.spec), Beyond(cx.spec, |matches|)).Counted?
    ensures FieldsFire(cx, text, matches)
            <==> var hits := WindowTally(cx, text, matches, First(cx.spec), Beyond(cx.spec, |matches|)).hits;
                 if cx.spec.checkAllResults then hits == |matches| else hits > 0
  {
    WindowTallyMeaning(cx, text, matches, First(cx.spec), Beyond(cx.spec, |matches|));
  }

  /** Occurrence k and field f are looked at: any match, or the one asked for. */
  predicate Examined(spec: TestSpec, matches: seq<int>, k: int, f: int)
  {
    0 <= k < |matches| && 0 <= f < |spec.fields| && (spec.occurrence == 0 || k == spec.occurrence - 1)
  }

  /** What the fields of one result decide, by their cells: an error if one of them fails; otherwise
      with check_all_results the test fires when every cell fires and every match was examined, and
      without when one does. */
  lemma FieldsByCells(cx: Context, text: Text, matches: seq<int>)
    requires 0 <= cx.spec.occurrence <= |matches| && matches != [] && cx.spec.fields != []
    ensures FieldsOutcome(cx, text, matches).Failed?
            <==> exists k, f :: Examined(cx.spec, matches, k, f) && Cell(cx, text, matches[k], cx.spec.fields[f]).Err?
    ensures !FieldsOutcome(cx, text, matches).Failed? ==>
              FieldsOutcome(cx, text, matches)
              == if (if cx.spec.checkAllResults
                     then (cx.spec.occurrence == 0 || |matches| == 1)
                          && forall k, f :: Examined(cx.spec, matches, k, f) ==> Cell(cx, text, matches[k], cx.spec.fields[f]) == Ok(true)
                     else exists k, f :: Examined(cx.spec, matches, k, f) && Cell(cx, text, matches[k], cx.spec.fields[f]) == Ok(true))
                 then Decided(true) else Continue
  {
    var lo, hi := First(cx.spec), Beyond(cx.spec, |matches|);
    WindowTallyMeaning(cx, text, matches, lo, hi);
    hide Cell, WindowTally, RowTally;
    forall k | lo <= k < hi
      ensures RowTally(cx, text, matches[k], |cx.spec.fields|).Counted?
              <==> forall f :: Examined(cx.spec, matches, k, f) ==> Cell(cx, text, matches[k], cx.spec.fields[f]).Ok?
      ensures OccurrencePasses(cx, text, matches[k])
              <==> if cx.spec.checkAllResults
                   then forall f :: Examined(cx.spec, matches, k, f) ==> Cell(cx, text, matches[k], cx.spec.fields[f]) == Ok(true)
                   else exists f :: Examined(cx.spec, matches, k, f) && Cell(cx, text, matches[k], cx.spec.fields[f]) == Ok(true)
    {
      RowTallyMeaning(cx, text, matches[k], |cx.spec.fields|);
    }
    hide OccurrencePasses;
  }

  /** What a result that the pattern matched decides: it fires when the number of matches is not the
      one expected, or the occurrence asked for exists and there are no fields or they fire; it ends the
      test without firing exactly when the occurrence asked for does not exist; it fails when a field
      cannot be checked or the occurrence is negative. In all other cases the next result is looked at. */
  lemma OutcomeExactly(cx: Context, text: Text)
    ensures var matches, spec, outcome := Matches(cx, text), cx.spec, ResultOutcome(cx, text);
            var expected := spec.numberOfOccurrences.None? || spec.numberOfOccurrences.value == |matches|;
            var failing := spec.occurrence < 0
                           || exists k, f :: Examined(spec, matches, k, f) && Cell(cx, text, matches[k], spec.fields[f]).Err?;
            var firing := if spec.checkAllResults
                          then (spec.occurrence == 0 || |matches| == 1)
                               && forall k, f :: Examined(spec, matches, k, f) ==> Cell(cx, text, matches[k], spec.fields[f]) == Ok(true)
                          else exists k, f :: Examined(spec, matches, k, f) && Cell(cx, text, matches[k], spec.fields[f]) == Ok(true);
            (outcome == Decided(true)
             <==> matches != []
                  && (!expected || (spec.occurrence <= |matches| && (spec.fields == [] || (!failing && firing)))))
            && (outcome == Decided(false) <==> matches != [] && expected && spec.occurrence > |matches|)
            && (outcome.Failed?
                <==> matches != [] && expected && spec.occurrence <= |matches| && spec.fields != [] && failing)
  {
    var matches := Matches(cx, text);
    hide Cell, FieldsOutcome, Matches;
    if 0 <= cx.spec.occurrence <= |matches| && matches != [] && cx.spec.fields != [] {
      FieldsByCells(cx, text, matches);
    }
  }

  // ----- the value history

  /** The last value written while the first n fields are checked; checking stops at the first
      error, and a value is written before its own check can fail. */
  function RowWrite(cx: Context, text: Text, at: int, n: nat): (r: Option<Values>)
    requires n <= |cx.spec.fields|
    ensures r.Some? ==> |r.value.fields| == 1
  {
    if n == 0 then None
    else
      var last := cx.spec.fields[n - 1];
      var extracted := Extract(cx, text, at, last);
      if RowTally(cx, text, at, n - 1).Counted? && extracted.Ok?
      then Some(One(last.fieldNumber, extracted.value))
      else RowWrite(cx, text, at, n - 1)
  }

  function WindowWrite(cx: Context, text: Text, matches: seq<int>, lo: nat, hi: nat): (r: Option<Values>)
    requires lo <= hi <= |matches|
    ensures r.Some? ==> |r.value.fields| == 1
    decreases hi
  {
    if hi == lo then None
    else
      var row := RowWrite(cx, text, matches[hi - 1], |cx.spec.fields|);
      if WindowTally(cx, text, matches, lo, hi - 1).Counted? && row.Some? then row
      else WindowWrite(cx, text, matches, lo, hi - 1)
  }

  /** The entry one result leaves for the current iteration, if it gets as far as extracting. */
  function ResultWrite(cx: Context, text: Text): (r: Option<Values>)
    ensures r.Some? ==> |r.value.fields| == 1
  {
    var matches := Matches(cx, text);
    if ReachesFields(cx.spec, matches)
    then WindowWrite(cx, text, matches, First(cx.spec), Beyond(cx.spec, |matches|))
    else None
  }

  function Written(store: Store, iteration: nat, entry: Option<Values>): (r: Store)
  {
    if entry.None? then store else store[iteration := entry.value]
  }

  /** The store after a test ran over the results of one iteration. */
  ghost function StoreAfter(cx: Context, store: Store, results: seq<CmdResult>): (r: Store)
    ensures forall i :: i != cx.iteration ==> (i in r <==> i in store) && (i in store ==> r[i] == store[i])
    ensures (forall i :: i in store ==> |store[i].fields| == 1) ==> forall i :: i in r ==> |r[i].fields| == 1
    decreases |results|
  {
    if |results| == 0 then store
    else
      var after := Written(store, cx.iteration, ResultWrite(cx, results[0].result));
      if ResultOutcome(cx, results[0].result).Continue? then StoreAfter(cx, after, results[1..]) else after
  }
}
