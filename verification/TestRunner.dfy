/** Running one test over the results of one command, and matching a command's patterns. */
module TestRunner {
  import opened Bytes
  import opened FieldParser
  import opened Verdict
  import opened Model

  /** A second write in the same iteration replaces the first and leaves the context of the checks. */
  lemma WrittenTwice(store: Store, iteration: nat, first: Option<Values>, second: Option<Values>)
    ensures Written(Written(store, iteration, first), iteration, second)
            == Written(store, iteration, if second.Some? then second else first)
    ensures At(Written(store, iteration, first), iteration - 1) == At(store, iteration - 1)
    ensures Written(store, iteration, None) == store
  {
  }

  /** Extract one field, store it as the iteration's only entry, then check it against the store. */
  method CheckField(lib: Lib, text: Text, at: int, field: Field, separator: Text, iteration: nat, store: Store)
    returns (r: Result<bool, Error>, after: Store)
    ensures var extracted := GetValue(lib, text, at, field.fieldNumber, separator);
            r == (if extracted.Err? then Err(extracted.error)
                  else if field.operation.Other? then Err(UnknownOperation)
                  else Ok(Fires(iteration, field, extracted.value, At(store, iteration - 1))))
            && after == Written(store, iteration,
                 if extracted.Ok? then Some(One(field.fieldNumber, extracted.value)) else None)
  {
    after := store;
    var extracted := GetValue(lib, text, at, field.fieldNumber, separator);
    if extracted.Err? {
      r := Err(extracted.error);
      return;
    }
    CheckAfterWrite(iteration, field, store, extracted.value);
    after := after[iteration := One(field.fieldNumber, extracted.value)];
    r := Check(iteration, field, after);
  }

  /** Nothing after the first error of a row is read or written. */
  lemma {:induction false} RowStops(cx: Context, text: Text, at: int, k: nat, n: nat)
    requires k <= n <= |cx.spec.fields| && RowTally(cx, text, at, k).Broken?
    ensures RowTally(cx, text, at, n) == RowTally(cx, text, at, k)
    ensures RowWrite(cx, text, at, n) == RowWrite(cx, text, at, k)
  {
    hide Cell, Extract;
    if k < n { RowStops(cx, text, at, k, n - 1); }
  }

  /** The loop over the fields at one occurrence. */
  method CheckFields(lib: Lib, text: Text, at: int, spec: TestSpec, iteration: nat, store: Store)
    returns (r: Tally, after: Store)
    ensures var cx := ContextAt(lib, spec, iteration, store);
            r == RowTally(cx, text, at, |spec.fields|)
            && after == Written(store, iteration, RowWrite(cx, text, at, |spec.fields|))
  {
    ghost var cx := ContextAt(lib, spec, iteration, store);
    hide Written, At, GetValue, Fires;
    WrittenTwice(store, iteration, None, None);
    var hits := 0;
    after := store;
    for k := 0 to |spec.fields|
      invariant RowTally(cx, text, at, k) == Counted(hits)
      invariant after == Written(store, iteration, RowWrite(cx, text, at, k))
    {
      ghost var extracted := GetValue(lib, text, at, spec.fields[k].fieldNumber, spec.separator);
      WrittenTwice(store, iteration, RowWrite(cx, text, at, k),
                   if extracted.Ok? then Some(One(spec.fields[k].fieldNumber, extracted.value)) else None);
      var fired;
      fired, after := CheckField(lib, text, at, spec.fields[k], spec.separator, iteration, after);
      if fired.Err? {
        RowStops(cx, text, at, k + 1, |spec.fields|);
        return Broken(fired.error), after;
      }
      if fired.value {
        hits := hits + 1;
      }
    }
    r := Counted(hits);
  }

  lemma {:induction false} WindowStops(cx: Context, text: Text, matches: seq<int>, lo: nat, k: nat, hi: nat)
    requires lo <= k <= hi <= |matches| && WindowTally(cx, text, matches, lo, k).Broken?
    ensures WindowTally(cx, text, matches, lo, hi) == WindowTally(cx, text, matches, lo, k)
    ensures WindowWrite(cx, text, matches, lo, hi) == WindowWrite(cx, text, matches, lo, k)
    decreases hi
  {
    hide RowTally, RowWrite, CountPasses;
    if k < hi { WindowStops(cx, text, matches, lo, k, hi - 1); }
  }

  /** The loop over the occurrences to examine, matches[lo..hi]. */
  method CheckOccurrences(lib: Lib, text: Text, matches: seq<int>, lo: nat, hi: nat, spec: TestSpec, iteration: nat,
                          store: Store)
    returns (r: Tally, after: Store)
    requires lo <= hi <= |matches|
    ensures var cx := ContextAt(lib, spec, iteration, store);
            r == WindowTally(cx, text, matches, lo, hi)
            && after == Written(store, iteration, WindowWrite(cx, text, matches, lo, hi))
  {
    ghost var cx := ContextAt(lib, spec, iteration, store);
    hide Written, At, RowTally, RowWrite;
    WrittenTwice(store, iteration, None, None);
    var hits := 0;
    after := store;
    for indx := lo to hi
      invariant WindowTally(cx, text, matches, lo, indx) == Counted(hits)
      invariant after == Written(store, iteration, WindowWrite(cx, text, matches, lo, indx))
    {
      var row;
      WrittenTwice(store, iteration, WindowWrite(cx, text, matches, lo, indx),
                   RowWrite(cx, text, matches[indx], |spec.fields|));
      row, after := CheckFields(lib, text, matches[indx], spec, iteration, after);
      if row.Broken? {
        WindowStops(cx, text, matches, lo, indx + 1, hi);
        return Broken(row.error), after;
      }
      if spec.checkAllResults {
        if row.hits == |spec.fields| {
          hits := hits + 1;
        }
      } else if row.hits > 0 {
        hits := hits + 1;
      }
    }
    r := Counted(hits);
  }

  /** One result that the pattern matched, from the count test on. */
  method CheckMatches(lib: Lib, text: Text, matches: seq<int>, spec: TestSpec, iteration: nat, store: Store)
    returns (o: Outcome, after: Store)
    requires matches != [] && matches == Matches(ContextAt(lib, spec, iteration, store), text)
    ensures var cx := ContextAt(lib, spec, iteration, store);
            o == ResultOutcome(cx, text) && after == Written(store, iteration, ResultWrite(cx, text))
  {
    ghost var cx := ContextAt(lib, spec, iteration, store);
    after := store;
    if spec.numberOfOccurrences.Some? && spec.numberOfOccurrences.value != |matches| {
      return Decided(true), after;
    }
    if |matches| <= spec.occurrence - 1 {
      return Decided(false), after;
    }
    if |spec.fields| == 0 {
      NothingToWrite(cx, text, matches);
      return Decided(true), after;
    }
    if spec.occurrence < 0 {
      return Failed(Panic), after;
    }
    var nm, indx := |matches|, 0;
    if spec.occurrence != 0 {
      nm := spec.occurrence;
      indx := spec.occurrence - 1;
    }
    var hits;
    hits, after := CheckOccurrences(lib, text, matches, indx, nm, spec, iteration, store);
    if hits.Broken? {
      return Failed(hits.error), after;
    }
    CountersDecide(cx, text, matches);
    if spec.checkAllResults {
      if hits.hits == |matches| {
        return Decided(true), after;
      }
    } else if hits.hits > 0 {
      return Decided(true), after;
    }
    o := Continue;
  }

  lemma {:induction false} NoFieldsNoWrite(cx: Context, text: Text, matches: seq<int>, lo: nat, hi: nat)
    requires cx.spec.fields == [] && lo <= hi <= |matches|
    ensures WindowWrite(cx, text, matches, lo, hi).None?
    decreases hi
  {
    if lo < hi { NoFieldsNoWrite(cx, text, matches, lo, hi - 1); }
  }

  lemma NothingToWrite(cx: Context, text: Text, matches: seq<int>)
    requires cx.spec.fields == [] && matches == Matches(cx, text)
    ensures ResultWrite(cx, text).None?
  {
    if ReachesFields(cx.spec, matches) {
      NoFieldsNoWrite(cx, text, matches, First(cx.spec), Beyond(cx.spec, |matches|));
    }
  }

  /** runTest: the first decisive result is the verdict, the store keeps one entry, and with any
      result to look at the pattern gets compiled if its text compiles at all. */
  method RunTest(lib: Lib, results: seq<CmdResult>, t: Test, iteration: nat) returns (r: Result<bool, Error>)
    requires t.Valid(lib)
    modifies t.Footprint()
    ensures t.Valid(lib)
    ensures t.pattern != null ==>
              t.pattern.regExp == if results == [] then old(t.pattern.regExp) else lib.Compile(t.pattern.source)
    ensures var cx := ContextAt(lib, t.spec, iteration, old(t.valuesStore));
            r == TestVerdict(cx, results) && t.valuesStore == StoreAfter(cx, old(t.valuesStore), results)
  {
    ghost var cx := ContextAt(lib, t.spec, iteration, t.valuesStore);
    for i := 0 to |results|
      invariant t.Valid(lib)
      invariant t.pattern != null ==>
                  t.pattern.regExp == if i == 0 then old(t.pattern.regExp) else lib.Compile(t.pattern.source)
      invariant ContextAt(lib, t.spec, iteration, t.valuesStore) == cx
      invariant TestVerdict(cx, results) == TestVerdict(cx, results[i..])
      invariant StoreAfter(cx, old(t.valuesStore), results) == StoreAfter(cx, t.valuesStore, results[i..])
    {
      assert results[i..][1..] == results[i + 1..];
      var text := results[i].result;
      if t.pattern == null {
        continue;
      }
      if t.pattern.regExp.None? {
        var compiled := lib.Compile(t.pattern.source);
        if compiled.None? {
          continue;
        }
        t.pattern.regExp := compiled;
      }
      var matches := FindAll(t.pattern.regExp.value, text);
      if matches == [] {
        continue;
      }
      var o, after := CheckMatches(lib, text, matches, t.spec, iteration, t.valuesStore);
      t.valuesStore := after;
      if o.Failed? {
        return Err(o.error);
      }
      if o.Decided? {
        return Ok(o.fired);
      }
    }
    return Ok(false);
  }

  // ----- matching the patterns of a command

  const LINE_ENDS: set<Byte> := {NL, CR, TAB}

  /** The patterns before p that match one line; a pattern that does not compile matches nothing. */
  function LineMatches(lib: Lib, line: Text, patterns: seq<Text>, p: nat): (r: seq<Text>)
    requires p <= |patterns|
  {
    if p == 0 then []
    else
      var regex := lib.Compile(patterns[p - 1]);
      LineMatches(lib, line, patterns, p - 1)
      + if regex.Some? && FindAll(regex.value, line) != [] then [Trim(line, LINE_ENDS)] else []
  }

  function LinesMatches(lib: Lib, lines: seq<Text>, l: nat, patterns: seq<Text>): (r: seq<Text>)
    requires l <= |lines|
  {
    if l == 0 then []
    else LinesMatches(lib, lines, l - 1, patterns) + LineMatches(lib, lines[l - 1], patterns, |patterns|)
  }

  function ResultsMatches(lib: Lib, results: seq<CmdResult>, n: nat, patterns: seq<Text>): (r: seq<Text>)
    requires n <= |results|
  {
    if n == 0 then []
    else
      var lines := ReadLines(results[n - 1].result);
      ResultsMatches(lib, results, n - 1, patterns) + LinesMatches(lib, lines, |lines|, patterns)
  }

  /** Every line of every result once per pattern that matches it, trimmed, in order. */
  function PatternMatches(lib: Lib, results: seq<CmdResult>, patterns: seq<Text>): (r: seq<Text>)
  {
    ResultsMatches(lib, results, |results|, patterns)
  }

  /** The patterns before p that compile and match the line. */
  ghost function Matching(lib: Lib, line: Text, patterns: seq<Text>, p: nat): (r: set<nat>)
    requires p <= |patterns|
  {
    set k: nat | k < p && lib.Compile(patterns[k]).Some? && FindAll(lib.Compile(patterns[k]).value, line) != []
  }

  /** One line: it is there once per pattern that compiles and matches it, without the line ends and
      tabs around it. */
  lemma {:induction false} LineForm(lib: Lib, line: Text, patterns: seq<Text>, p: nat)
    requires p <= |patterns|
    ensures |LineMatches(lib, line, patterns, p)| == |Matching(lib, line, patterns, p)|
    ensures forall m :: m in LineMatches(lib, line, patterns, p) ==> m == Trim(line, {NL, CR, TAB})
  {
    hide Trim, FindAll, Lib.Compile;
    if p > 0 {
      LineForm(lib, line, patterns, p - 1);
      MatchingNext(lib, line, patterns, p);
      hide Matching;
    }
  }

  lemma MatchingNext(lib: Lib, line: Text, patterns: seq<Text>, p: nat)
    requires 0 < p <= |patterns|
    ensures |Matching(lib, line, patterns, p)|
            == |Matching(lib, line, patterns, p - 1)|
               + if lib.Compile(patterns[p - 1]).Some? && FindAll(lib.Compile(patterns[p - 1]).value, line) != [] then 1 else 0
  {
    hide FindAll, Lib.Compile;
    var before := Matching(lib, line, patterns, p - 1);
    if lib.Compile(patterns[p - 1]).Some? && FindAll(lib.Compile(patterns[p - 1]).value, line) != [] {
      assert Matching(lib, line, patterns, p) == before + {p - 1};
    } else {
      assert Matching(lib, line, patterns, p) == before;
    }
  }

  /** One result: what its lines give, in order. */
  lemma {:induction false} LinesForm(lib: Lib, lines: seq<Text>, l: nat, patterns: seq<Text>, parts: seq<seq<Text>>)
    requires l <= |lines| && |parts| == |lines|
    requires forall k :: 0 <= k < |lines| ==> parts[k] == LineMatches(lib, lines[k], patterns, |patterns|)
    ensures LinesMatches(lib, lines, l, patterns) == Flatten(parts[..l])
  {
    hide LineMatches;
    if l > 0 {
      LinesForm(lib, lines, l - 1, patterns, parts);
      assert parts[..l][..l - 1] == parts[..l - 1];
    }
  }

  lemma {:induction false} ResultsForm(lib: Lib, results: seq<CmdResult>, n: nat, patterns: seq<Text>, parts: seq<seq<Text>>)
    requires n <= |results| && |parts| == |results|
    requires forall k :: 0 <= k < |results| ==>
               parts[k] == LinesMatches(lib, ReadLines(results[k].result), |ReadLines(results[k].result)|, patterns)
    ensures ResultsMatches(lib, results, n, patterns) == Flatten(parts[..n])
  {
    hide LinesMatches, ReadLines;
    if n > 0 {
      ResultsForm(lib, results, n - 1, patterns, parts);
      assert parts[..n][..n - 1] == parts[..n - 1];
    }
  }

  /** All lines of all results, in order. */
  lemma MatchesForm(lib: Lib, results: seq<CmdResult>, patterns: seq<Text>, parts: seq<seq<seq<Text>>>, flat: seq<seq<Text>>)
    requires |parts| == |flat| == |results|
    requires forall n :: 0 <= n < |results| ==> |parts[n]| == |ReadLines(results[n].result)| && flat[n] == Flatten(parts[n])
    requires forall n, l :: 0 <= n < |results| && 0 <= l < |parts[n]| ==>
               parts[n][l] == LineMatches(lib, ReadLines(results[n].result)[l], patterns, |patterns|)
    ensures PatternMatches(lib, results, patterns) == Flatten(flat)
  {
    forall n | 0 <= n < |results|
      ensures flat[n] == LinesMatches(lib, ReadLines(results[n].result), |ReadLines(results[n].result)|, patterns)
    {
      var lines := ReadLines(results[n].result);
      LinesForm(lib, lines, |lines|, patterns, parts[n]);
      assert parts[n][..|lines|] == parts[n];
    }
    hide LineMatches, LinesMatches, ReadLines;
    ResultsForm(lib, results, |results|, patterns, flat);
    assert flat[..|results|] == flat;
  }

  function Sources(patterns: seq<Pattern>): (r: seq<Text>)
  {
    seq(|patterns|, i requires 0 <= i < |patterns| => patterns[i].source)
  }

  method MatchPatterns(lib: Lib, results: seq<CmdResult>, patterns: seq<Pattern>) returns (matches: seq<Text>)
    requires forall p :: p in patterns ==> p.Compiled(lib)
    ensures matches == PatternMatches(lib, results, Sources(patterns))
  {
    hide Trim, ReadLines, FindAll;
    matches := [];
    ghost var sources := Sources(patterns);
    for n := 0 to |results|
      invariant matches == ResultsMatches(lib, results, n, sources)
    {
      var lines := ReadLines(results[n].result);
      ghost var before := matches;
      for l := 0 to |lines|
        invariant matches == before + LinesMatches(lib, lines, l, sources)
      {
        ghost var earlier := matches;
        for p := 0 to |patterns|
          invariant matches == earlier + LineMatches(lib, lines[l], sources, p)
        {
          assert patterns[p].Compiled(lib) && sources[p] == patterns[p].source;
          if FindAll(patterns[p].regExp.value, lines[l]) != [] {
            matches := matches + [Trim(lines[l], LINE_ENDS)];
          }
        }
      }
    }
  }
}
