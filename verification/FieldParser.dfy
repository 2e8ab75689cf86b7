/** The field extractor of the repro engine: find the line around a match, split it on
    runs of separator bytes, pick one field and trim it. */
module FieldParser {
  import opened Bytes

  /** Why a field cannot be checked. `Panic` is a Go run-time panic, which no code recovers. */
  datatype Error =
    | BadSeparator
    | NoSuchField
    | NotAString
    | UnknownOperation
    | Panic

  const TRIMMED: set<Byte> := {SPACE, NL, TAB, COMMA}

  // ----- the two line searches

  /** First match of `(?m)$` in b[from..], as an index into b. */
  function EndOfLine(b: Text, from: nat): (en: nat)
    requires from <= |b|
    ensures from <= en <= |b|
    decreases |b| - from
  {
    if from == |b| || b[from] == NL then from else EndOfLine(b, from + 1)
  }

  lemma {:induction false} EndOfLineMeaning(b: Text, from: nat)
    requires from <= |b|
    ensures var en := EndOfLine(b, from);
            (forall k :: from <= k < en ==> b[k] != NL) && (en == |b| || b[en] == NL)
    decreases |b| - from
  {
    if from < |b| && b[from] != NL { EndOfLineMeaning(b, from + 1); }
  }

  /** All matches of `(?m)^` in b: position 0 and every position after a newline. */
  function LineStarts(b: Text): (starts: seq<int>)
    ensures |starts| > 0
    ensures 0 <= starts[|starts| - 1] <= |b|
  {
    if |b| == 0 then [0]
    else
      var before := LineStarts(b[..|b| - 1]);
      if b[|b| - 1] == NL then before + [|b|] else before
  }

  lemma {:induction false} LastLineStart(b: Text)
    ensures var starts := LineStarts(b);
            var st := starts[|starts| - 1];
            (forall k :: st <= k < |b| ==> b[k] != NL) && (st == 0 || b[st - 1] == NL)
  {
    if |b| > 0 {
      var before := b[..|b| - 1];
      LastLineStart(before);
      assert forall k :: 0 <= k < |before| ==> before[k] == b[k];
    }
  }

  datatype Segment = Segment(st: nat, en: nat)

  /** The line location done before splitting; the slice b[:en-1] panics when en is 0. */
  function Locate(b: Text, at: int): (r: Result<Segment, Error>)
    ensures r.Ok? ==> r.value.st <= r.value.en <= |b|
  {
    if !(0 <= at <= |b|) then Err(Panic)
    else
      var en := EndOfLine(b, at);
      if en == 0 then Err(Panic)
      else
        var starts := LineStarts(b[..en - 1]);
        Ok(Segment(starts[|starts| - 1], en))
  }

  /** `seg` is a maximal newline-free stretch of `b` that `at` lies in or ends. */
  ghost predicate IsLineAround(b: Text, at: nat, seg: Segment)
  {
    seg.st <= at <= seg.en <= |b|
    && (forall k :: seg.st <= k < seg.en ==> b[k] != NL)
    && (seg.st == 0 || b[seg.st - 1] == NL)
    && (seg.en == |b| || b[seg.en] == NL)
  }

  lemma LineAroundUnique(b: Text, at: nat, s1: Segment, s2: Segment)
    requires IsLineAround(b, at, s1) && IsLineAround(b, at, s2)
    ensures s1 == s2
  {
  }

  /** The line around `at` has at least one byte. */
  predicate OnNonEmptyLine(b: Text, at: nat)
  {
    at <= |b| && ((at < |b| && b[at] != NL) || (at > 0 && b[at - 1] != NL))
  }

  /** The located segment is the line around the match exactly when that line is not empty. */
  lemma LocateExact(b: Text, at: nat)
    requires at <= |b|
    ensures OnNonEmptyLine(b, at) <==> (Locate(b, at).Ok? && IsLineAround(b, at, Locate(b, at).value))
  {
    var en := EndOfLine(b, at);
    EndOfLineMeaning(b, at);
    if en > 0 {
      var short := b[..en - 1];
      LastLineStart(short);
      assert forall k :: 0 <= k < |short| ==> short[k] == b[k];
      assert b[en - 1] != NL <==> OnNonEmptyLine(b, at);
    }
  }

  /** A match that starts on a byte other than a newline, wherever the line lies in the buffer. */
  lemma LocateMatch(b: Text, at: nat)
    requires at < |b| && b[at] != NL
    ensures Locate(b, at).Ok? && IsLineAround(b, at, Locate(b, at).value)
  {
    LocateExact(b, at);
  }

  /** The slice bound underflows exactly on an empty first line. */
  lemma LocatePanicsExactly(b: Text, at: nat)
    requires at <= |b|
    ensures Locate(b, at) == Err(Panic) <==> at == 0 && (b == [] || b[0] == NL)
  {
    EndOfLineMeaning(b, at);
  }

  /** On any later empty line two lines come back: the one before it, its newline, and the empty one. */
  lemma LocateEmptyLine(b: Text, at: nat)
    requires 0 < at <= |b| && !OnNonEmptyLine(b, at)
    ensures var r := Locate(b, at);
            r.Ok? && r.value.en == at && r.value.st < at && IsLineAround(b, at - 1, Segment(r.value.st, at - 1))
  {
    var short := b[..at - 1];
    EndOfLineMeaning(b, at);
    assert EndOfLine(b, at) == at;
    LastLineStart(short);
    assert forall k :: 0 <= k < |short| ==> short[k] == b[k];
  }

  /** An empty first line, and an empty line behind "A". */
  lemma LocateEmptyLineFails()
    ensures Locate([NL], 0) == Err(Panic)
    ensures Locate([0x41, NL, NL], 2) == Ok(Segment(0, 2))
  {
  }

  // ----- splitting on runs of separator bytes

  /** First position at or after `from` whose byte is (`want`) or is not (`!want`) a separator. */
  function Scan(s: Text, sep: set<Byte>, from: nat, want: bool): (i: nat)
    requires from <= |s|
    ensures from <= i <= |s|
    ensures i < |s| ==> (s[i] in sep) == want
    decreases |s| - from
  {
    if from == |s| || (s[from] in sep) == want then from else Scan(s, sep, from + 1, want)
  }

  lemma {:induction false} ScanMeaning(s: Text, sep: set<Byte>, from: nat, want: bool)
    requires from <= |s|
    ensures forall k :: from <= k < Scan(s, sep, from, want) ==> (s[k] in sep) != want
    decreases |s| - from
  {
    if from < |s| && (s[from] in sep) != want { ScanMeaning(s, sep, from + 1, want); }
  }

  /** Split on `[sep]+`, keeping every piece between the leftmost longest runs. */
  function Split(s: Text, sep: set<Byte>): (parts: seq<Text>)
    ensures |parts| > 0
    decreases |s|
  {
    var i := Scan(s, sep, 0, true);
    if i == |s| then [s]
    else [s[..i]] + Split(s[Scan(s, sep, i, false)..], sep)
  }

  /** The separator runs that Split removed, in order. */
  function Runs(s: Text, sep: set<Byte>): (runs: seq<Text>)
    ensures |runs| + 1 == |Split(s, sep)|
    decreases |s|
  {
    var i := Scan(s, sep, 0, true);
    if i == |s| then []
    else
      var j := Scan(s, sep, i, false);
      [s[i..j]] + Runs(s[j..], sep)
  }

  /** part 0, run 0, part 1, run 1, ... */
  function Weave(parts: seq<Text>, runs: seq<Text>): (s: Text)
    requires |parts| == |runs| + 1
    decreases |runs|
  {
    if |runs| == 0 then parts[0] else parts[0] + runs[0] + Weave(parts[1..], runs[1..])
  }

  predicate SeparatorFree(s: Text, sep: set<Byte>) { forall k :: 0 <= k < |s| ==> s[k] !in sep }

  /** Parts and runs a line can fall into: runs are non-empty, inner parts are non-empty. */
  ghost predicate IsFielding(parts: seq<Text>, runs: seq<Text>, sep: set<Byte>)
  {
    |parts| == |runs| + 1
    && (forall k :: 0 <= k < |parts| ==> SeparatorFree(parts[k], sep))
    && (forall k :: 0 <= k < |runs| ==> runs[k] != [] && AllIn(runs[k], sep))
    && (forall k :: 0 < k < |parts| - 1 ==> parts[k] != [])
  }

  /** One step of Split: a separator-free piece, a run, and a rest that starts with no separator. */
  lemma SplitStep(head: Text, run: Text, rest: Text, sep: set<Byte>)
    requires SeparatorFree(head, sep) && run != [] && AllIn(run, sep)
    requires rest == [] || rest[0] !in sep
    ensures Split(head + run + rest, sep) == [head] + Split(rest, sep)
    ensures Runs(head + run + rest, sep) == [run] + Runs(rest, sep)
  {
    var s := head + run + rest;
    var i, j := |head|, |head| + |run|;
    assert s[..i] == head && s[i..j] == run && s[j..] == rest;
    assert forall k :: 0 <= k < i ==> s[k] == head[k];
    assert forall k {:trigger s[k]} :: i <= k < j ==> s[k] == run[k - i];
    assert rest != [] ==> s[j] == rest[0];
    assert s[i] == run[0];
    ScanMeaning(s, sep, 0, true);
    ScanMeaning(s, sep, i, false);
    assert Scan(s, sep, 0, true) == i;
    assert Scan(s, sep, i, false) == j;
  }

  lemma SplitUnfold(s: Text, sep: set<Byte>, i: nat, j: nat)
    requires i == Scan(s, sep, 0, true) < |s| && j == Scan(s, sep, i, false)
    ensures s == s[..i] + s[i..j] + s[j..]
    ensures SeparatorFree(s[..i], sep) && s[i..j] != [] && AllIn(s[i..j], sep)
    ensures s[j..] == [] || s[j..][0] !in sep
    ensures Split(s, sep) == [s[..i]] + Split(s[j..], sep)
    ensures Runs(s, sep) == [s[i..j]] + Runs(s[j..], sep)
  {
    ScanMeaning(s, sep, 0, true);
    ScanMeaning(s, sep, i, false);
  }

  /** Every line is the weave of what Split returns with the runs it drops. */
  lemma {:induction false} WeaveOfSplit(s: Text, sep: set<Byte>)
    ensures IsFielding(Split(s, sep), Runs(s, sep), sep)
    ensures Weave(Split(s, sep), Runs(s, sep)) == s
    ensures s != [] && s[0] !in sep ==> Split(s, sep)[0] != []
    decreases |s|
  {
    var i := Scan(s, sep, 0, true);
    if i < |s| {
      var j := Scan(s, sep, i, false);
      SplitUnfold(s, sep, i, j);
      WeaveOfSplit(s[j..], sep);
      hide Split, Runs;
      FieldingStep(s[..i], s[i..j], Split(s[j..], sep), Runs(s[j..], sep), sep);
    } else {
      ScanMeaning(s, sep, 0, true);
    }
  }

  lemma FieldingStep(head: Text, run: Text, parts: seq<Text>, runs: seq<Text>, sep: set<Byte>)
    requires SeparatorFree(head, sep) && run != [] && AllIn(run, sep)
    requires IsFielding(parts, runs, sep) && (|parts| > 1 ==> parts[0] != [])
    ensures IsFielding([head] + parts, [run] + runs, sep)
    ensures Weave([head] + parts, [run] + runs) == head + run + Weave(parts, runs)
  {
    var ps, rs := [head] + parts, [run] + runs;
    assert ps[1..] == parts && rs[1..] == runs;
    assert forall k :: 0 < k < |ps| ==> ps[k] == parts[k - 1];
    assert forall k :: 0 < k < |rs| ==> rs[k] == runs[k - 1];
  }

  lemma FieldingTail(parts: seq<Text>, runs: seq<Text>, sep: set<Byte>)
    requires IsFielding(parts, runs, sep) && |runs| > 0
    ensures IsFielding(parts[1..], runs[1..], sep)
    ensures Weave(parts[1..], runs[1..]) == [] || Weave(parts[1..], runs[1..])[0] !in sep
  {
    var ps, rs := parts[1..], runs[1..];
    assert forall k :: 0 <= k < |ps| ==> ps[k] == parts[k + 1];
    assert forall k :: 0 <= k < |rs| ==> rs[k] == runs[k + 1];
    if |rs| > 0 { assert ps[0] == parts[1] != []; }
  }

  /** Split recovers every fielding from its weave, so the fielding of a line is unique. */
  lemma {:induction false} SplitOfWeave(parts: seq<Text>, runs: seq<Text>, sep: set<Byte>)
    requires IsFielding(parts, runs, sep)
    ensures Split(Weave(parts, runs), sep) == parts
    decreases |runs|
  {
    if |runs| == 0 {
      ScanMeaning(parts[0], sep, 0, true);
      assert Scan(parts[0], sep, 0, true) == |parts[0]|;
    } else {
      FieldingTail(parts, runs, sep);
      SplitOfWeave(parts[1..], runs[1..], sep);
      SplitStep(parts[0], runs[0], Weave(parts[1..], runs[1..]), sep);
    }
  }

  // ----- the extractor

  /** A compiled expression, as the start positions of all its matches in each text; a text that is
      not a key has no match. */
  datatype Regex = Regex(matches: imap<Text, seq<int>>)

  /** The regular-expression library: what patterns and character classes denote. A source text
      that is not a key does not compile. */
  datatype Lib = Lib(patterns: imap<Text, Regex>, classes: imap<Text, set<Byte>>)
  {
    function Compile(source: Text): (r: Option<Regex>)
    {
      if source in patterns then Some(patterns[source]) else None
    }

    function CharClass(source: Text): (r: Option<set<Byte>>)
    {
      if source in classes then Some(classes[source]) else None
    }
  }

  function FindAll(regex: Regex, text: Text): (starts: seq<int>)
  {
    if text in regex.matches then regex.matches[text] else []
  }

  function GetValue(lib: Lib, b: Text, at: int, fieldNumber: int, separator: Text): (r: Result<Text, Error>)
  {
    match Locate(b, at)
    case Err(e) => Err(e)
    case Ok(seg) =>
      match lib.CharClass(if separator == [] then [SPACE] else separator)
      case None => Err(BadSeparator)
      case Some(sep) =>
        var parts := Split(b[seg.st..seg.en], sep);
        if |parts| <= fieldNumber then Err(NoSuchField)
        else if fieldNumber < 0 then Err(Panic)
        else Ok(Trim(parts[fieldNumber], TRIMMED))
  }

  /** Reading back: on the line around the match, field k is token k of any way the line can be
      written as tokens joined by separator runs; past the last token the extraction fails. */
  lemma FieldOfJoinedLine(lib: Lib, b: Text, at: nat, seg: Segment, separator: Text, sep: set<Byte>,
                          parts: seq<Text>, runs: seq<Text>, k: int)
    requires OnNonEmptyLine(b, at) && IsLineAround(b, at, seg)
    requires lib.CharClass(if separator == [] then [SPACE] else separator) == Some(sep)
    requires IsFielding(parts, runs, sep) && b[seg.st..seg.en] == Weave(parts, runs)
    ensures GetValue(lib, b, at, k, separator)
            == if k >= |parts| then Err(NoSuchField)
               else if k < 0 then Err(Panic)
               else Ok(Trim(parts[k], {SPACE, NL, TAB, COMMA}))
  {
    LocateExact(b, at);
    LineAroundUnique(b, at, seg, Locate(b, at).value);
    SplitOfWeave(parts, runs, sep);
  }

  /** Everything that can keep a field from being read: an empty first line, a separator that is no
      character class, a number past the last part, or a negative one. */
  lemma ReadingFails(lib: Lib, b: Text, at: nat, k: int, separator: Text)
    requires at <= |b|
    ensures var name := if separator == [] then [SPACE] else separator;
            var r, underflow := GetValue(lib, b, at, k, separator), at == 0 && (b == [] || b[0] == NL);
            (r == Err(BadSeparator) <==> !underflow && name !in lib.classes)
            && (r == Err(NoSuchField)
                <==> !underflow && name in lib.classes
                     && k >= |Split(b[Locate(b, at).value.st..Locate(b, at).value.en], lib.classes[name])|)
            && (r == Err(Panic) <==> underflow || (name in lib.classes && k < 0))
            && r != Err(NotAString) && r != Err(UnknownOperation)
  {
    LocatePanicsExactly(b, at);
  }

  /** Tokens joined by runs, with an optional run in front and one behind. */
  ghost predicate IsTokenLine(line: Text, lead: Text, tokens: seq<Text>, runs: seq<Text>, trail: Text, sep: set<Byte>)
  {
    |tokens| == |runs| + 1
    && (forall k :: 0 <= k < |tokens| ==> tokens[k] != [] && SeparatorFree(tokens[k], sep))
    && (forall k :: 0 <= k < |runs| ==> runs[k] != [] && AllIn(runs[k], sep))
    && AllIn(lead, sep) && AllIn(trail, sep)
    && line == lead + Weave(tokens, runs) + trail
  }

  function WithEnds<T>(front: bool, s: seq<T>, back: bool, end: T): (r: seq<T>)
  {
    (if front then [end] else []) + s + (if back then [end] else [])
  }

  lemma {:induction false} WeaveBack(parts: seq<Text>, runs: seq<Text>, trail: Text)
    requires |parts| == |runs| + 1
    ensures Weave(parts + [[]], runs + [trail]) == Weave(parts, runs) + trail
    decreases |runs|
  {
    if |runs| == 0 {
      assert (parts + [[]])[1..] == [[]] && (runs + [trail])[1..] == [];
    } else {
      WeaveBack(parts[1..], runs[1..], trail);
      assert (parts + [[]])[1..] == parts[1..] + [[]];
      assert (runs + [trail])[1..] == runs[1..] + [trail];
    }
  }

  /** Split undoes join: a leading run shifts the numbering by one, a trailing run adds an empty field. */
  lemma SplitOfTokens(line: Text, lead: Text, tokens: seq<Text>, runs: seq<Text>, trail: Text, sep: set<Byte>)
    requires IsTokenLine(line, lead, tokens, runs, trail, sep)
    ensures Split(line, sep) == WithEnds(lead != [], tokens, trail != [], [])
  {
    hide Split, Weave;
    var p, r := WithTrail(tokens, runs, trail, sep);
    var whole := Weave(p, r);
    assert lead + Weave(tokens, runs) + trail == lead + whole;
    if lead != [] {
      FieldingStep([], lead, p, r, sep);
      assert [] + lead + whole == line;
      SplitOfWeave([[]] + p, [lead] + r, sep);
    } else {
      assert line == whole && [] + p == p;
      SplitOfWeave(p, r, sep);
    }
  }

  /** Tokens with a trailing run are parts with an empty last one. */
  lemma WithTrail(tokens: seq<Text>, runs: seq<Text>, trail: Text, sep: set<Byte>) returns (p: seq<Text>, r: seq<Text>)
    requires |tokens| == |runs| + 1 && AllIn(trail, sep)
    requires forall k :: 0 <= k < |tokens| ==> tokens[k] != [] && SeparatorFree(tokens[k], sep)
    requires forall k :: 0 <= k < |runs| ==> runs[k] != [] && AllIn(runs[k], sep)
    ensures p == WithEnds(false, tokens, trail != [], []) && IsFielding(p, r, sep) && p[0] != []
    ensures Weave(p, r) == Weave(tokens, runs) + trail
  {
    hide Weave;
    if trail == [] {
      p, r := tokens, runs;
      assert Weave(tokens, runs) + [] == Weave(tokens, runs);
    } else {
      WeaveBack(tokens, runs, trail);
      p, r := tokens + [[]], runs + [trail];
    }
  }
}
